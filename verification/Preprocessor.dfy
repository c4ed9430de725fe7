/**
 Splitting a file's patch at hunk boundaries, numbering each part, and batching the parts for the LLM.
 */
module Preprocessor {
  import opened Options
  import opened Text
  import opened LineMapping
  import opened Packing
  import opened PatchApplication

  const MAX_CHUNK_TOKENS := 4000
  const MAX_CHUNKS_PER_BATCH := 8
  const MAX_BATCH_TOKENS := 32000

  /** About four characters a token, and at least one for any text. */
  function EstimateTokens(t: Text): (tokens: nat)
    ensures tokens == 0 <==> CharCount(t) == 0
    ensures tokens > 1 ==> 4 * tokens <= CharCount(t)
    ensures CharCount(t) < 4 * tokens + 4
  {
    var n := CharCount(t);
    if n == 0 then 0 else if n / 4 > 1 then n / 4 else 1
  }

  // ----- Cutting at hunk headers -----

  /** Cuts before every header line.  A piece that is not the last keeps its final newline. */
  function Cut(open_: Text, rest: Text): seq<Text>
    decreases |rest|
  {
    if rest == [] then [open_]
    else if IsHeader(rest[0]) then [open_ + [""]] + Cut([rest[0]], rest[1..])
    else Cut(open_ + [rest[0]], rest[1..])
  }

  function RawHunks(patch: Text): seq<Text> {
    var s := StripText(patch);
    if s == [] || s == [""] then [] else Cut([s[0]], s[1..])
  }

  function FirstLine(t: Text): string {
    if t == [] then "" else Strip(t[0])
  }

  /** Sub-patches with their headings.  Joining hunks with a newline is concatenation of their pieces. */
  function Subpatches(patch: Text, maxTokens: int): seq<(string, Text)> {
    var raw := RawHunks(patch);
    if raw == [] then [("@@ -1,1 +1,1 @@", patch)]
    else if EstimateTokens(patch) <= maxTokens then [(FirstLine(raw[0]), patch)]
    else Headed(Pack(EstimateTokens, |raw|, maxTokens, [], raw))
  }

  function Headed(groups: seq<seq<Text>>): (r: seq<(string, Text)>)
    ensures |r| == |groups|
  {
    seq(|groups|, i requires 0 <= i < |groups| => Joined(groups[i]))
  }

  function Joined(group: seq<Text>): (string, Text) {
    (if group == [] then "" else FirstLine(group[0]), Flatten(group))
  }

  lemma HeadedExtends(groups: seq<seq<Text>>, group: seq<Text>)
    ensures Headed(groups + [group]) == Headed(groups) + [Joined(group)]
  {
  }

  lemma EmptyTotals()
    ensures Total(EstimateTokens, []) == 0 && Headed([]) == []
  {
  }

  lemma TotalExtends(current: seq<Text>, hunk: Text)
    ensures Total(EstimateTokens, current + [hunk]) == Total(EstimateTokens, current) + EstimateTokens(hunk)
    ensures Total(EstimateTokens, [hunk]) == EstimateTokens(hunk)
  {
    TotalAppend(EstimateTokens, current, [hunk]);
    assert Total(EstimateTokens, [hunk]) == EstimateTokens(hunk) + Total(EstimateTokens, []);
  }

  method SplitPatch(patch: Text, maxTokens: int := MAX_CHUNK_TOKENS) returns (subpatches: seq<(string, Text)>)
    ensures subpatches == Subpatches(patch, maxTokens)
  {
    hide RawHunks, Headed, CharCount, EstimateTokens, Total, Pack, Flatten, FirstLine;
    var raw := RawHunks(patch);
    if raw == [] {
      return [("@@ -1,1 +1,1 @@", patch)];
    }
    if EstimateTokens(patch) <= maxTokens {
      return [(FirstLine(raw[0]), patch)];
    }
    subpatches := [];
    var current: seq<Text> := [];
    var currentTokens := 0;
    var currentHeader := "";
    ghost var done: seq<seq<Text>> := [];
    EmptyTotals();
    var i := 0;
    assert raw[0..] == raw;
    while i < |raw|
      invariant 0 <= i <= |raw|
      invariant subpatches == Headed(done)
      invariant currentTokens == Total(EstimateTokens, current)
      invariant current != [] ==> currentHeader == FirstLine(current[0])
      invariant |current| <= i && (current == [] ==> i == 0)
      invariant done + Pack(EstimateTokens, |raw|, maxTokens, current, raw[i..])
             == Pack(EstimateTokens, |raw|, maxTokens, [], raw)
    {
      var hunk := raw[i];
      var hunkTokens := EstimateTokens(hunk);
      PackStep(EstimateTokens, |raw|, maxTokens, current, raw, i);
      TotalExtends(current, hunk);
      if current == [] {
        currentHeader := FirstLine(hunk);
        current := current + [hunk];
        currentTokens := hunkTokens;
      } else if currentTokens + hunkTokens <= maxTokens {
        current := current + [hunk];
        currentTokens := currentTokens + hunkTokens;
      } else {
        subpatches := subpatches + [(currentHeader, Flatten(current))];
        HeadedExtends(done, current);
        done := done + [current];
        currentHeader := FirstLine(hunk);
        current := [hunk];
        currentTokens := hunkTokens;
      }
      i := i + 1;
    }
    PackStep(EstimateTokens, |raw|, maxTokens, current, raw, i);
    if current != [] {
      subpatches := subpatches + [(currentHeader, Flatten(current))];
      HeadedExtends(done, current);
    }
  }

  // ----- The parts are the patch -----

  /** Two texts written one after the other. */
  function Glue(a: Text, b: Text): Text
    requires a != [] && b != []
  {
    a[..|a| - 1] + [a[|a| - 1] + b[0]] + b[1..]
  }

  function Rejoined(hunks: seq<Text>): (t: Text)
    requires hunks != [] && forall i :: 0 <= i < |hunks| ==> hunks[i] != []
    ensures t != []
  {
    if |hunks| == 1 then hunks[0] else Glue(hunks[0], Rejoined(hunks[1..]))
  }

  lemma GlueLine(a: Text, b: Text)
    requires b != []
    ensures Glue(a + [""], [b[0]] + b[1..]) == a + b
  {
    assert (a + [""])[..|a|] == a && "" + b[0] == b[0];
  }

  lemma GlueExtends(a: Text, b: Text, line: string)
    requires a != [] && b != []
    ensures Glue(a, b + [line]) == Glue(a, b) + [line]
    ensures Glue([line] + a, b) == [line] + Glue(a, b)
  {
    assert (b + [line])[1..] == b[1..] + [line];
    assert ([line] + a)[..|a|] == [line] + a[..|a| - 1];
  }

  ghost predicate AllBlank(t: Text) {
    t != [] && forall i, j :: 0 <= i < |t| && 0 <= j < |t[i]| ==> IsSpace(t[i][j])
  }

  /** Stripping takes white space off both ends and nothing else. */
  lemma {:induction false} LStripTextTakesBlanks(t: Text) returns (blanks: Text)
    requires t != []
    ensures AllBlank(blanks) && LStripText(t) != [] && t == Glue(blanks, LStripText(t))
    ensures var first := LStripText(t)[0]; (first != "" && !IsSpace(first[0])) || LStripText(t) == [""]
  {
    var first := LStrip(t[0]);
    var w := t[0][..Span(t[0], IsSpace)];
    if first == "" && |t| > 1 {
      var rest := LStripTextTakesBlanks(t[1..]);
      blanks := [t[0]] + rest;
      GlueExtends(rest, LStripText(t), t[0]);
    } else {
      blanks := [w];
      assert w + first == t[0];
    }
  }

  lemma {:induction false} RStripTextTakesBlanks(t: Text) returns (blanks: Text)
    requires t != []
    ensures AllBlank(blanks) && RStripText(t) != [] && t == Glue(RStripText(t), blanks)
    ensures var r := RStripText(t); var last := r[|r| - 1]; (last != "" && !IsSpace(last[|last| - 1])) || r == [""]
  {
    hide RStrip;
    var n := |t| - 1;
    var last := RStrip(t[n]);
    RStripExtends(t[n]);
    if last == "" && n > 0 {
      var rest := RStripTextTakesBlanks(t[..n]);
      blanks := rest + [t[n]];
      GlueExtends(RStripText(t), rest, t[n]);
    } else {
      blanks := [t[n][|last|..]];
      assert last + blanks[0] == t[n];
    }
  }

  lemma StripTextTakesBlanks(t: Text) returns (before: Text, after: Text)
    requires t != []
    ensures AllBlank(before) && AllBlank(after) && StripText(t) != []
    ensures t == Glue(before, Glue(StripText(t), after))
  {
    before := LStripTextTakesBlanks(t);
    after := RStripTextTakesBlanks(LStripText(t));
  }

  /** Every hunk is one header with the lines up to the next, and the first may be what precedes any header. */
  lemma {:induction false} CutRejoins(open_: Text, rest: Text)
    requires open_ != [] && forall i :: 0 < i < |open_| ==> !IsHeader(open_[i])
    ensures var hunks := Cut(open_, rest);
            && hunks != [] && (forall i :: 0 <= i < |hunks| ==> hunks[i] != [])
            && Rejoined(hunks) == open_ + rest
            && (forall i, k :: 0 <= i < |hunks| && 0 < k < |hunks[i]| ==> !IsHeader(hunks[i][k]))
    decreases |rest|
  {
    HeaderShape("");
    hide IsHeader;
    if rest != [] {
      if IsHeader(rest[0]) {
        CutRejoins([rest[0]], rest[1..]);
        var later := Cut([rest[0]], rest[1..]);
        assert ([open_ + [""]] + later)[1..] == later;
        GlueLine(open_, rest);
      } else {
        CutRejoins(open_ + [rest[0]], rest[1..]);
        assert open_ + [rest[0]] + rest[1..] == open_ + rest;
      }
    }
  }

  /** The hunks written one after the other are the stripped patch; each starts with a header line, except
      perhaps the first, and holds no other. */
  lemma RawHunksAreThePatch(patch: Text)
    requires RawHunks(patch) != []
    ensures var raw := RawHunks(patch);
            && (forall i :: 0 <= i < |raw| ==> raw[i] != []) && Rejoined(raw) == StripText(patch)
            && HeadersAfter(raw, 1)
            && (forall i, k :: 0 <= i < |raw| && 0 < k < |raw[i]| ==> !IsHeader(raw[i][k]))
  {
    hide StripText, Cut, IsHeader;
    var s := StripText(patch);
    CutRejoins([s[0]], s[1..]);
    CutAtHeaders([s[0]], s[1..]);
    assert [s[0]] + s[1..] == s;
  }

  /** A patch that fits, or that has no text, is sent whole.  Otherwise each part is some hunks in order, joined
      with a newline, under its own first line. */
  lemma PartsAreThePatch(patch: Text, maxTokens: int)
    ensures var parts := Subpatches(patch, maxTokens);
            && (RawHunks(patch) == [] ==> parts == [("@@ -1,1 +1,1 @@", patch)])
            && (RawHunks(patch) != [] && EstimateTokens(patch) <= maxTokens ==>
                  parts == [(Strip(StripText(patch)[0]), patch)])
            && (RawHunks(patch) != [] && EstimateTokens(patch) > maxTokens ==>
                  exists groups :: Flatten(groups) == RawHunks(patch) && PartsOf(groups, parts))
  {
    if RawHunks(patch) != [] {
      hide EstimateTokens, StripText, Cut, Pack, FirstLine, Strip;
      FirstHeading(patch);
      if EstimateTokens(patch) > maxTokens {
        GroupedParts(patch, maxTokens);
      }
    }
  }

  lemma FirstHeading(patch: Text)
    requires RawHunks(patch) != []
    ensures StripText(patch) != [] && FirstLine(RawHunks(patch)[0]) == Strip(StripText(patch)[0])
  {
    hide StripText, Cut, Strip;
    FlattenStartsWith([StripText(patch)[0]], StripText(patch)[1..]);
  }

  lemma GroupedParts(patch: Text, maxTokens: int)
    requires RawHunks(patch) != [] && EstimateTokens(patch) > maxTokens
    ensures exists groups :: Flatten(groups) == RawHunks(patch) && PartsOf(groups, Subpatches(patch, maxTokens))
  {
    hide RawHunks, EstimateTokens, Pack, Flatten, IsHeader, Rejoined;
    var raw := RawHunks(patch);
    var groups := Pack(EstimateTokens, |raw|, maxTokens, [], raw);
    RawHunksAreThePatch(patch);
    PackIsFeasible(EstimateTokens, |raw|, maxTokens, [], raw);
    assert [] + raw == raw;
    forall i | 0 <= i < |groups| ensures PartOf(groups[i], Headed(groups)[i]) {
      GroupMembers(groups, i);
      assert Fits(EstimateTokens, |raw|, maxTokens, groups[i]);
      assert groups[i][0] in raw;
      JoinedIsPart(groups[i]);
    }
  }

  ghost predicate PartOf(group: seq<Text>, part: (string, Text)) {
    group != [] && part.1 == Flatten(group) && part.1 != [] && part.0 == Strip(part.1[0])
  }

  ghost predicate PartsOf(groups: seq<seq<Text>>, parts: seq<(string, Text)>) {
    |parts| == |groups| && forall i :: 0 <= i < |groups| ==> PartOf(groups[i], parts[i])
  }

  lemma JoinedIsPart(group: seq<Text>)
    requires group != [] && group[0] != []
    ensures PartOf(group, Joined(group))
  {
  }

  // ----- Size of a sub-patch -----

  lemma {:induction false} CharCountAppend(a: Text, b: Text)
    requires a != [] && b != []
    ensures CharCount(a + b) == CharCount(a) + 1 + CharCount(b)
  {
    if |a| == 1 {
      assert (a + b)[1..] == b;
    } else {
      assert (a + b)[1..] == a[1..] + b;
      CharCountAppend(a[1..], b);
    }
  }

  lemma {:induction false} JoinedLength(hunks: seq<Text>)
    requires hunks != [] && forall i :: 0 <= i < |hunks| ==> hunks[i] != []
    ensures Flatten(hunks) != []
    ensures CharCount(Flatten(hunks)) + 1 <= 4 * Total(EstimateTokens, hunks) + 4 * |hunks|
  {
    var rest := hunks[1..];
    if rest == [] {
      assert Flatten(rest) == [] && hunks[0] + [] == hunks[0];
      assert Total(EstimateTokens, rest) == 0;
    } else {
      JoinedLength(rest);
      CharCountAppend(hunks[0], Flatten(rest));
    }
  }

  lemma {:induction false} EveryHunkCosts(hunks: seq<Text>)
    requires forall i :: 0 <= i < |hunks| ==> CharCount(hunks[i]) > 0
    ensures |hunks| <= Total(EstimateTokens, hunks)
  {
    if hunks != [] {
      EveryHunkCosts(hunks[1..]);
    }
  }

  /** Each hunk's estimate drops a remainder and joining adds newlines, so a sub-patch of n hunks may
      overshoot, by at most n - 1 tokens and always by less than the limit itself. */
  lemma OvershootBound(group: seq<Text>, maxTokens: int)
    requires |group| >= 2 && Fits(EstimateTokens, |group|, maxTokens, group)
    requires forall i :: 0 <= i < |group| ==> CharCount(group[i]) > 0
    ensures EstimateTokens(Flatten(group)) <= maxTokens + |group| - 1
    ensures EstimateTokens(Flatten(group)) < 2 * maxTokens
  {
    JoinedLength(group);
    EveryHunkCosts(group);
  }

  // ----- Modified lines -----

  /** Numbers of the added lines, when `at` is the number the next new-side line gets (`None` outside a
      hunk) and every file header names the same file. */
  function Scan(lines: Text, at: Option<int>): set<int> {
    if lines == [] then {}
    else
      (if at.Some? && Adds(lines[0]) then {at.value} else {}) + Scan(lines[1..], Next(lines[0], at))
  }

  predicate Adds(line: string) {
    line != "" && line[0] == '+' && !("+++ " <= line)
  }

  function Next(line: string, at: Option<int>): Option<int> {
    if "+++ " <= line || "--- " <= line then None
    else if "@@" <= line then (if IsHeader(line) then Some(ReadHeader(line).value.newStart) else None)
    else if at.Some? && line != "" && (line[0] == '+' || line[0] == ' ') then Some(at.value + 1)
    else at
  }

  function NextAfter(lines: Text, at: Option<int>): Option<int> {
    if lines == [] then at else NextAfter(lines[1..], Next(lines[0], at))
  }

  /** Every line that starts like a `+++` header names the file with this key. */
  predicate OwnFileOnly(key: string, lines: Text) {
    forall i :: 0 <= i < |lines| && "+++ " <= lines[i] ==> Normalize(lines[i][4..]) == key
  }

  ghost function ModifiedIn(f: FileDiff): set<int> {
    set i, n | 0 <= i < |f.hunks| && n in f.hunks[i].modified :: n
  }

  function Position(st: State): Option<int> {
    if st.inHunk then Some(st.newLine) else None
  }

  lemma ScanStep(st: State, line: string, key: string)
    requires st.Valid() && st.current == Some(key) && key != ""
    requires "+++ " <= line ==> Normalize(line[4..]) == key
    ensures var r := Step(st, line);
            && r.current == Some(key) && Position(r) == Next(line, Position(st))
            && ModifiedIn(r.files[key]) == ModifiedIn(st.files[key]) + (if st.inHunk && Adds(line) then {st.newLine} else {})
  {
    hide ReadHeader, Normalize;
    StepByFirstChar(st, line);
    assert "--- " <= line ==> line[0] == '-';
    assert "@@" <= line ==> line[0] == '@';
    if "+++ " <= line {
      assert Step(st, line) == st.(inHunk := false);
    } else if st.inHunk && line != "" && (line[0] == '+' || line[0] == ' ') {
      var h := st.Hunk();
      var more := if line[0] == '+' then {st.newLine} else {};
      var g := if line[0] == '+' then h.(modified := h.modified + more) else h.(context := h.context + {st.newLine});
      RecordModified(st, g, more);
    } else if "@@" <= line && ReadHeader(line).Some? {
      EnterModified(st, ReadHeader(line).value);
    }
  }

  lemma RecordModified(st: State, g: DiffHunk, more: set<int>)
    requires st.Valid() && st.inHunk && g.modified == st.Hunk().modified + more
    ensures var key := st.current.value;
            ModifiedIn(st.Record(g).files[key]) == ModifiedIn(st.files[key]) + more
  {
    var key := st.current.value;
    var a, b := st.files[key], st.Record(g).files[key];
    var last := |a.hunks| - 1;
    forall n ensures n in ModifiedIn(b) <==> n in ModifiedIn(a) + more {
      if n in ModifiedIn(a) {
        var i :| 0 <= i < |a.hunks| && n in a.hunks[i].modified;
        assert n in b.hunks[i].modified;
      }
      if n in more {
        assert n in b.hunks[last].modified;
      }
    }
  }

  lemma EnterModified(st: State, header: Header)
    requires st.Valid() && st.current.Some?
    ensures var key := st.current.value;
            ModifiedIn(st.EnterHunk(header).files[key]) == ModifiedIn(st.files[key])
  {
    var key := st.current.value;
    var a, b := st.files[key], st.EnterHunk(header).files[key];
    forall n ensures n in ModifiedIn(b) <==> n in ModifiedIn(a) {
      if n in ModifiedIn(a) {
        var i :| 0 <= i < |a.hunks| && n in a.hunks[i].modified;
        assert n in b.hunks[i].modified;
      }
    }
  }

  /** The parser finds exactly the scanned numbers. */
  lemma {:induction false} ParseIsScan(st: State, lines: Text, key: string)
    requires st.Valid() && st.current == Some(key) && key != "" && OwnFileOnly(key, lines)
    ensures var r := Parse(st, lines);
            && r.current == Some(key)
            && ModifiedIn(r.files[key]) == ModifiedIn(st.files[key]) + Scan(lines, Position(st))
    decreases |lines|
  {
    hide Step, ModifiedIn, Next, Normalize;
    if lines != [] {
      ScanStep(st, lines[0], key);
      ParseIsScan(Step(st, lines[0]), lines[1..], key);
    }
  }

  // ----- The parts find what the whole finds -----

  lemma {:induction false} ScanAppend(a: Text, b: Text, at: Option<int>)
    ensures Scan(a + b, at) == Scan(a, at) + Scan(b, NextAfter(a, at))
    decreases |a|
  {
    hide Next, Adds;
    if a == [] {
      assert a + b == b;
    } else {
      assert (a + b)[1..] == a[1..] + b;
      ScanAppend(a[1..], b, Next(a[0], at));
    }
  }

  /** From a header on, nothing before matters. */
  lemma HeaderRestarts(lines: Text, at: Option<int>)
    requires lines != [] && IsHeader(lines[0])
    ensures Scan(lines, at) == Scan(lines, None)
  {
    HeaderShape(lines[0]);
  }

  lemma HeaderShape(line: string)
    ensures IsHeader(line) ==> "@@" <= line && line[0] == '@'
    ensures IsHeader(line) ==> !("--- " <= line) && !Adds(line)
  {
  }

  lemma BlankIsIgnored(lines: Text, at: Option<int>)
    ensures Scan([""] + lines, at) == Scan(lines, at)
  {
    assert ([""] + lines)[1..] == lines;
  }

  /** The newline that ends a piece changes nothing. */
  lemma {:induction false} CutKeepsScan(open_: Text, rest: Text)
    ensures Scan(Flatten(Cut(open_, rest)), None) == Scan(open_ + rest, None)
    decreases |rest|
  {
    hide IsHeader, Next, Adds;
    if rest == [] {
      assert Cut(open_, rest)[1..] == [];
      assert Flatten(Cut(open_, rest)) == open_ + [] == open_ + rest;
    } else if IsHeader(rest[0]) {
      var later := Cut([rest[0]], rest[1..]);
      var tail := Flatten(later);
      assert Cut(open_, rest) == [open_ + [""]] + later;
      assert Cut(open_, rest)[1..] == later;
      assert Flatten(Cut(open_, rest)) == open_ + ([""] + tail);
      CutKeepsScan([rest[0]], rest[1..]);
      assert [rest[0]] + rest[1..] == rest;
      ScanAppend(open_, [""] + tail, None);
      ScanAppend(open_, rest, None);
      BlankIsIgnored(tail, NextAfter(open_, None));
      FlattenStartsWith([rest[0]], rest[1..]);
      HeaderRestarts(tail, NextAfter(open_, None));
      HeaderRestarts(rest, NextAfter(open_, None));
    } else {
      assert open_ + [rest[0]] + rest[1..] == open_ + rest;
      CutKeepsScan(open_ + [rest[0]], rest[1..]);
    }
  }

  lemma {:induction false} FlattenStartsWith(open_: Text, rest: Text)
    requires open_ != []
    ensures Cut(open_, rest) != [] && Cut(open_, rest)[0] != []
    ensures Cut(open_, rest)[0][0] == open_[0]
    ensures Flatten(Cut(open_, rest)) != [] && Flatten(Cut(open_, rest))[0] == open_[0]
    decreases |rest|
  {
    hide IsHeader;
    if rest != [] && !IsHeader(rest[0]) {
      FlattenStartsWith(open_ + [rest[0]], rest[1..]);
    }
  }

  /** Every piece but the first starts with a header line. */
  ghost predicate HeadersAfter(hunks: seq<Text>, from_: nat) {
    forall i :: from_ <= i < |hunks| ==> hunks[i] != [] && IsHeader(hunks[i][0])
  }

  lemma {:induction false} CutAtHeaders(open_: Text, rest: Text)
    requires open_ != []
    ensures HeadersAfter(Cut(open_, rest), 1)
    decreases |rest|
  {
    hide IsHeader;
    if rest != [] {
      if IsHeader(rest[0]) {
        CutAtHeaders([rest[0]], rest[1..]);
        FlattenStartsWith([rest[0]], rest[1..]);
      } else {
        CutAtHeaders(open_ + [rest[0]], rest[1..]);
      }
    }
  }

  ghost function ScanAll(parts: seq<Text>): set<int> {
    if parts == [] then {} else Scan(parts[0], None) + ScanAll(parts[1..])
  }

  /** Scanning parts that each start with a header is scanning them end to end. */
  lemma {:induction false} PartsScan(first: Text, parts: seq<Text>)
    requires HeadersAfter(parts, 0)
    ensures Scan(first + Flatten(parts), None) == Scan(first, None) + ScanAll(parts)
    decreases |parts|
  {
    hide IsHeader;
    if parts == [] {
      assert first + Flatten(parts) == first;
    } else {
      var tail := Flatten(parts);
      ScanAppend(first, tail, None);
      assert tail[0] == parts[0][0];
      HeaderRestarts(tail, NextAfter(first, None));
      PartsScan(parts[0], parts[1..]);
    }
  }

  lemma FlattenHeaders(hunks: seq<Text>)
    requires hunks != [] && HeadersAfter(hunks, 0)
    ensures Flatten(hunks) != [] && IsHeader(Flatten(hunks)[0])
  {
    hide IsHeader;
    assert Flatten(hunks)[0] == hunks[0][0];
  }

  ghost function JoinAll(groups: seq<seq<Text>>): (r: seq<Text>)
    ensures |r| == |groups|
  {
    seq(|groups|, i requires 0 <= i < |groups| => Flatten(groups[i]))
  }

  lemma {:induction false} FlattenTwice(groups: seq<seq<Text>>)
    ensures Flatten(JoinAll(groups)) == Flatten(Flatten(groups))
  {
    if groups != [] {
      assert JoinAll(groups)[1..] == JoinAll(groups[1..]);
      FlattenTwice(groups[1..]);
      FlattenAppend(groups[0], Flatten(groups[1..]));
    }
  }

  lemma {:induction false} FlattenAppend(a: seq<Text>, b: seq<Text>)
    ensures Flatten(a + b) == Flatten(a) + Flatten(b)
  {
    if a == [] {
      assert a + b == b;
    } else {
      assert (a + b)[1..] == a[1..] + b;
      FlattenAppend(a[1..], b);
    }
  }

  /** However the hunks are grouped in order, the groups' added lines are those of all the hunks. */
  lemma GroupsScan(groups: seq<seq<Text>>, hunks: seq<Text>)
    requires Flatten(groups) == hunks && HeadersAfter(hunks, 1)
    requires forall i :: 0 <= i < |groups| ==> groups[i] != []
    ensures ScanAll(JoinAll(groups)) == Scan(Flatten(hunks), None)
  {
    hide IsHeader;
    FlattenTwice(groups);
    if groups != [] {
      var joined := JoinAll(groups);
      var rest := groups[1..];
      assert joined[1..] == JoinAll(rest);
      assert hunks == groups[0] + Flatten(rest);
      forall i | 0 <= i < |rest| ensures JoinAll(rest)[i] != [] && IsHeader(JoinAll(rest)[i][0]) {
        GroupHeaders(groups, hunks, i + 1);
        FlattenHeaders(rest[i]);
      }
      PartsScan(joined[0], joined[1..]);
    }
  }

  lemma {:induction false} GroupHeaders(groups: seq<seq<Text>>, hunks: seq<Text>, i: nat)
    requires Flatten(groups) == hunks && i < |groups|
    requires forall j :: 0 <= j < |groups| ==> groups[j] != []
    requires HeadersAfter(hunks, if i == 0 then 0 else 1)
    ensures HeadersAfter(groups[i], 0)
    decreases |groups|
  {
    hide IsHeader;
    var n := |groups[0]|;
    assert hunks[..n] == groups[0] && hunks[n..] == Flatten(groups[1..]);
    if i == 0 {
      assert forall j :: 0 <= j < n ==> groups[0][j] == hunks[j];
    } else {
      assert forall j :: 0 <= j < |hunks[n..]| ==> hunks[n..][j] == hunks[n + j];
      GroupHeaders(groups[1..], hunks[n..], i - 1);
    }
  }

  // ----- Stripping -----

  /** What remains of a line without its trailing white space starts the same way, unless it is a file
      header that names nothing. */
  lemma StrippedStarts(line: string)
    requires "+++ " <= line ==> Normalize(line[4..]) != ""
    ensures "+++ " <= RStrip(line) <==> "+++ " <= line
    ensures Adds(RStrip(line)) <==> Adds(line)
  {
    hide Normalize;
    var r := RStrip(line);
    RStripExtends(line);
    if "+++ " <= line {
      if |r| <= 4 {
        BlankKey(line[4..]);
      }
      assert r[..4] == line[..4];
    }
  }

  lemma FileHeaderStarts(line: string)
    ensures "+++ " <= line ==> line != "" && line[0] == '+'
  {
  }

  lemma BlankKey(s: string)
    requires forall i :: 0 <= i < |s| ==> IsSpace(s[i])
    ensures Normalize(s) == ""
  {
  }

  lemma {:induction false} RStripSpaces(s: string, w: string)
    requires forall i :: 0 <= i < |w| ==> IsSpace(w[i])
    ensures RStrip(s + w) == RStrip(s)
  {
    if w == "" {
      assert s + w == s;
    } else {
      var n := |w| - 1;
      assert (s + w)[..|s| + n] == s + w[..n];
      RStripSpaces(s, w[..n]);
    }
  }

  lemma {:induction false} SpanStops(s: string, w: string, p: char -> bool)
    requires Span(s, p) < |s|
    ensures Span(s + w, p) == Span(s, p)
  {
    if p(s[0]) {
      assert (s + w)[1..] == s[1..] + w;
      SpanStops(s[1..], w, p);
    }
  }

  /** Trailing white space does not matter to a key. */
  lemma KeyWithoutTrailing(s: string, w: string)
    requires s != "" && !IsSpace(s[|s| - 1])
    requires forall i :: 0 <= i < |w| ==> IsSpace(w[i])
    ensures Normalize(s + w) == Normalize(s)
  {
    hide Before, DropSlashes, IsSpace;
    assert Span(s, IsSpace) < |s|;
    SpanStops(s, w, IsSpace);
    assert LStrip(s + w) == LStrip(s) + w;
    RStripSpaces(LStrip(s), w);
  }

  lemma KeyWithoutSpaces(line: string)
    requires "+++ " <= RStrip(line)
    ensures "+++ " <= line && Normalize(RStrip(line)[4..]) == Normalize(line[4..])
  {
    hide Normalize;
    var r := RStrip(line);
    RStripExtends(line);
    assert r[..4] == line[..4] == "+++ ";
    assert r[3] == ' ';
    assert line[4..] == r[4..] + line[|r|..];
    KeyWithoutTrailing(r[4..], line[|r|..]);
  }

  lemma ScanOne(line: string, at: Option<int>)
    ensures Scan([line], at) == if at.Some? && Adds(line) then {at.value} else {}
  {
    var lines: Text := [line];
    assert Scan(lines[1..], Next(line, at)) == {};
  }

  lemma LastLineScan(t: Text, last: string, at: Option<int>)
    requires t != [] && (Adds(last) <==> Adds(t[|t| - 1]))
    ensures Scan(t[..|t| - 1] + [last], at) == Scan(t, at)
    ensures !Adds(last) ==> Scan(t[..|t| - 1], at) == Scan(t, at)
  {
    hide Adds, Next, Scan, NextAfter;
    var n := |t| - 1;
    assert t == t[..n] + [t[n]];
    ScanAppend(t[..n], [t[n]], at);
    ScanAppend(t[..n], [last], at);
    ScanOne(t[n], NextAfter(t[..n], at));
    ScanOne(last, NextAfter(t[..n], at));
  }

  /** Blank space at the end of a text holds no added line. */
  lemma {:induction false} RStripKeepsScan(key: string, t: Text, at: Option<int>)
    requires key != "" && OwnFileOnly(key, t)
    ensures Scan(RStripText(t), at) == Scan(t, at)
    decreases |t|
  {
    assert !Adds("");
    hide RStrip, Adds, Normalize, Scan;
    if t != [] {
      var n := |t| - 1;
      StrippedStarts(t[n]);
      LastLineScan(t, RStrip(t[n]), at);
      if RStrip(t[n]) == "" && n > 0 {
        RStripKeepsScan(key, t[..n], at);
      }
    }
  }

  lemma {:induction false} RStripOwnFile(key: string, t: Text)
    requires OwnFileOnly(key, t)
    ensures OwnFileOnly(key, RStripText(t))
  {
    hide Normalize, RStrip;
    if t != [] {
      var n := |t| - 1;
      if RStrip(t[n]) == "" && n > 0 {
        RStripOwnFile(key, t[..n]);
      } else if "+++ " <= RStrip(t[n]) {
        KeyWithoutSpaces(t[n]);
      }
    }
  }

  /** The first line that is not blank (the last line when all are). */
  function FirstText(t: Text): string
    requires t != []
  {
    if LStrip(t[0]) == "" && |t| > 1 then FirstText(t[1..]) else t[0]
  }

  /** Losing its indentation does not turn the line into a hunk header or the header of another file. */
  predicate Harmless(key: string, line: string) {
    var l := LStrip(line);
    l == line || (!IsHeader(l) && ("+++ " <= l ==> Normalize(l[4..]) == key))
  }

  predicate NothingHidden(key: string, patch: Text) {
    patch != [] ==> Harmless(key, FirstText(patch))
  }

  lemma OutsideHunk(line: string)
    ensures !IsHeader(line) ==> Next(line, None) == None
  {
  }

  lemma BlankLine(line: string)
    requires LStrip(line) == ""
    ensures !IsHeader(line) && Next(line, None) == None && !("+++ " <= line)
  {
    assert forall i :: 0 <= i < |line| ==> IsSpace(line[i]);
  }

  lemma {:induction false} LStripKeepsScan(key: string, t: Text)
    requires t != [] && NothingHidden(key, t)
    ensures Scan(LStripText(t), None) == Scan(t, None)
    decreases |t|
  {
    hide IsHeader, LStrip, Next, Normalize;
    var first := LStrip(t[0]);
    if first == "" && |t| > 1 {
      BlankLine(t[0]);
      LStripKeepsScan(key, t[1..]);
    } else if first != t[0] {
      IndentedLine(t[0]);
      OutsideHunk(first);
      OutsideHunk(t[0]);
      assert ([first] + t[1..])[1..] == t[1..];
    } else {
      assert [first] + t[1..] == t;
    }
  }

  lemma IndentedLine(line: string)
    requires LStrip(line) != line
    ensures !IsHeader(line)
  {
    assert line != "" && IsSpace(line[0]);
    HeaderShape(line);
  }

  lemma {:induction false} LStripOwnFile(key: string, t: Text)
    requires t != [] && NothingHidden(key, t) && OwnFileOnly(key, t)
    ensures OwnFileOnly(key, LStripText(t))
    decreases |t|
  {
    hide IsHeader, LStrip, Normalize;
    if LStrip(t[0]) == "" && |t| > 1 {
      LStripOwnFile(key, t[1..]);
    }
  }

  // ----- One file -----

  /** The text that is parsed for one file: two name lines, then the patch without trailing blanks. */
  function Unified(path: string, patch: Text): Text {
    ["--- a/" + path, "+++ b/" + path] + RStripText(patch) + [""]
  }

  /** Added lines the parser finds for the file. */
  ghost function ModifiedLines(path: string, patch: Text): set<int> {
    var files := Parsed(Unified(path, patch));
    if path in files then ModifiedIn(files[path]) else {}
  }

  /** The key under which the parser keeps what follows the file's own name line. */
  function PathKey(path: string): string {
    Normalize("b/" + path)
  }

  /** The parser keeps the file's lines under the path itself, as it does for every path without white space
      or a leading slash. */
  predicate Findable(path: string) {
    path != "" && PathKey(path) == path
  }

  lemma PathLines(path: string)
    ensures Parse(INITIAL, ["--- a/" + path, "+++ b/" + path]) == INITIAL.EnterFile(PathKey(path))
  {
    hide Parse, Normalize, Step;
    NameLines(INITIAL, FilePatch("a/" + path, "b/" + path, []));
    assert "--- " + ("a/" + path) == "--- a/" + path && "+++ " + ("b/" + path) == "+++ b/" + path;
  }

  lemma ModifiedLinesAreScanned(path: string, patch: Text)
    requires Findable(path) && OwnFileOnly(path, patch)
    ensures ModifiedLines(path, patch) == Scan(patch, None)
  {
    hide Step, OwnFileOnly, Normalize;
    var names, body := ["--- a/" + path, "+++ b/" + path], RStripText(patch) + [""];
    assert Unified(path, patch) == names + body;
    ParseAppend(INITIAL, names, body);
    PathLines(path);
    RStripOwnFile(path, patch);
    BlankAtTheEnd(path, RStripText(patch));
    ParseIsScan(INITIAL.EnterFile(path), body, path);
    ScanAppend(RStripText(patch), [""], None);
    ScanOne("", NextAfter(RStripText(patch), None));
    RStripKeepsScan(path, patch, None);
    assert ModifiedIn(FileDiff(path, [])) == {};
  }

  // ----- Paths the parser keeps under another key -----

  /** Only this key is known, and a file without a name has no hunks. */
  ghost predicate OnlyKey(st: State, key: string) {
    && (forall k :: k in st.files ==> k == key)
    && (st.current.Some? ==> st.current.value == key)
    && (key == "" && key in st.files ==> st.files[key].hunks == [])
  }

  lemma {:induction false} OnlyKeyStays(st: State, lines: Text, key: string)
    requires st.Valid() && OnlyKey(st, key) && OwnFileOnly(key, lines)
    ensures OnlyKey(Parse(st, lines), key)
    decreases |lines|
  {
    hide Normalize, ReadHeader;
    if lines != [] {
      OnlyKeyStays(Step(st, lines[0]), lines[1..], key);
    }
  }

  /** For such a path no added line is ever found, in the whole or in a part. */
  lemma NothingFound(path: string, patch: Text)
    requires !Findable(path) && OwnFileOnly(PathKey(path), patch)
    ensures ModifiedLines(path, patch) == {}
  {
    hide Step, OwnFileOnly, Normalize;
    var key, names, body := PathKey(path), ["--- a/" + path, "+++ b/" + path], RStripText(patch) + [""];
    assert Unified(path, patch) == names + body;
    ParseAppend(INITIAL, names, body);
    PathLines(path);
    RStripOwnFile(key, patch);
    BlankAtTheEnd(key, RStripText(patch));
    OnlyKeyStays(INITIAL.EnterFile(key), body, key);
  }

  lemma BlankAtTheEnd(key: string, t: Text)
    ensures OwnFileOnly(key, t) ==> OwnFileOnly(key, t + [""])
  {
    hide Normalize;
  }

  ghost function UnionOver(path: string, subpatches: seq<(string, Text)>): set<int> {
    if subpatches == [] then {} else ModifiedLines(path, subpatches[0].1) + UnionOver(path, subpatches[1..])
  }

  lemma {:induction false} UnionIsScanAll(path: string, groups: seq<seq<Text>>)
    requires Findable(path) && forall i :: 0 <= i < |groups| ==> OwnFileOnly(path, Flatten(groups[i]))
    ensures UnionOver(path, Headed(groups)) == ScanAll(JoinAll(groups))
  {
    hide Scan, ModifiedLines, OwnFileOnly, Findable;
    if groups != [] {
      assert Headed(groups)[1..] == Headed(groups[1..]) && JoinAll(groups)[1..] == JoinAll(groups[1..]);
      ModifiedLinesAreScanned(path, Flatten(groups[0]));
      UnionIsScanAll(path, groups[1..]);
    }
  }

  lemma {:induction false} CutOwnFile(key: string, open_: Text, rest: Text)
    requires OwnFileOnly(key, open_) && OwnFileOnly(key, rest)
    ensures forall i :: 0 <= i < |Cut(open_, rest)| ==> OwnFileOnly(key, Cut(open_, rest)[i])
    decreases |rest|
  {
    hide IsHeader, Normalize;
    if rest != [] {
      if IsHeader(rest[0]) {
        CutOwnFile(key, [rest[0]], rest[1..]);
      } else {
        CutOwnFile(key, open_ + [rest[0]], rest[1..]);
      }
    }
  }

  lemma {:induction false} FlattenOwnFile(key: string, hunks: seq<Text>)
    requires forall i :: 0 <= i < |hunks| ==> OwnFileOnly(key, hunks[i])
    ensures OwnFileOnly(key, Flatten(hunks))
  {
    hide Normalize;
    if hunks != [] {
      FlattenOwnFile(key, hunks[1..]);
    }
  }

  lemma {:induction false} GroupMembers(groups: seq<seq<Text>>, i: nat)
    requires i < |groups|
    ensures forall j :: 0 <= j < |groups[i]| ==> groups[i][j] in Flatten(groups)
  {
    if i > 0 {
      GroupMembers(groups[1..], i - 1);
    }
  }

  /** The groups the hunks of a patch are packed into. */
  function Groups(patch: Text, maxTokens: int): seq<seq<Text>> {
    Pack(EstimateTokens, |RawHunks(patch)|, maxTokens, [], RawHunks(patch))
  }

  lemma PartsAreOwn(key: string, patch: Text, maxTokens: int)
    requires patch != [] && OwnFileOnly(key, patch) && NothingHidden(key, patch)
    ensures forall i :: 0 <= i < |Subpatches(patch, maxTokens)| ==> OwnFileOnly(key, Subpatches(patch, maxTokens)[i].1)
  {
    hide OwnFileOnly, NothingHidden, StripText, Cut, EstimateTokens, Pack;
    var raw, groups := RawHunks(patch), Groups(patch, maxTokens);
    if raw != [] {
      RawHunksOwnFile(key, patch);
      PackIsFeasible(EstimateTokens, |raw|, maxTokens, [], raw);
      assert [] + raw == raw;
      forall i | 0 <= i < |groups| ensures OwnFileOnly(key, Flatten(groups[i])) {
        GroupMembers(groups, i);
        FlattenOwnFile(key, groups[i]);
      }
    }
  }

  lemma RawHunksOwnFile(key: string, patch: Text)
    requires patch != [] && OwnFileOnly(key, patch) && NothingHidden(key, patch) && RawHunks(patch) != []
    ensures forall hunk :: hunk in RawHunks(patch) ==> OwnFileOnly(key, hunk)
  {
    hide Cut, OwnFileOnly, NothingHidden;
    var s := StripText(patch);
    LStripOwnFile(key, patch);
    RStripOwnFile(key, LStripText(patch));
    PartOwnFile(key, s);
    CutOwnFile(key, [s[0]], s[1..]);
  }

  lemma PartOwnFile(key: string, s: Text)
    requires s != [] && OwnFileOnly(key, s)
    ensures OwnFileOnly(key, [s[0]]) && OwnFileOnly(key, s[1..])
  {
    hide Normalize;
  }

  lemma RawHunksKeepScan(key: string, patch: Text)
    requires key != "" && patch != [] && OwnFileOnly(key, patch) && NothingHidden(key, patch) && RawHunks(patch) != []
    ensures Scan(Flatten(RawHunks(patch)), None) == Scan(patch, None)
    ensures HeadersAfter(RawHunks(patch), 1)
  {
    hide Scan, Cut, OwnFileOnly, NothingHidden;
    var s := StripText(patch);
    var open_, rest := [s[0]], s[1..];
    assert open_ + rest == s;
    CutKeepsScan(open_, rest);
    CutAtHeaders(open_, rest);
    LStripOwnFile(key, patch);
    LStripKeepsScan(key, patch);
    RStripKeepsScan(key, LStripText(patch), None);
  }

  lemma {:induction false} NothingInParts(path: string, subpatches: seq<(string, Text)>)
    requires !Findable(path) && forall i :: 0 <= i < |subpatches| ==> OwnFileOnly(PathKey(path), subpatches[i].1)
    ensures UnionOver(path, subpatches) == {}
  {
    hide ModifiedLines, OwnFileOnly, Findable, PathKey;
    if subpatches != [] {
      NothingFound(path, subpatches[0].1);
      NothingInParts(path, subpatches[1..]);
    }
  }

  /** Splitting a patch keeps its meaning: the added lines found in the parts are those of the whole. */
  lemma SplitPreservesModifiedLines(path: string, patch: Text, maxTokens: int)
    requires patch != [] && OwnFileOnly(PathKey(path), patch) && NothingHidden(PathKey(path), patch)
    ensures UnionOver(path, Subpatches(patch, maxTokens)) == ModifiedLines(path, patch)
  {
    hide Scan, ModifiedLines, OwnFileOnly, NothingHidden, RawHunks, EstimateTokens, PathKey, Pack;
    var raw, subpatches := RawHunks(patch), Subpatches(patch, maxTokens);
    PartsAreOwn(PathKey(path), patch, maxTokens);
    if !Findable(path) {
      NothingInParts(path, subpatches);
      NothingFound(path, patch);
    } else if raw == [] || EstimateTokens(patch) <= maxTokens {
      assert subpatches[1..] == [];
    } else {
      var groups := Groups(patch, maxTokens);
      PackIsFeasible(EstimateTokens, |raw|, maxTokens, [], raw);
      assert [] + raw == raw;
      RawHunksKeepScan(path, patch);
      GroupsScan(groups, raw);
      forall i | 0 <= i < |groups| ensures OwnFileOnly(path, Flatten(groups[i])) {
        assert subpatches[i].1 == Flatten(groups[i]);
      }
      UnionIsScanAll(path, groups);
      ModifiedLinesAreScanned(path, patch);
    }
  }

  // ----- Exactly which first lines keep the meaning -----

  const PLAIN_HEADER := "@@ -1 +1 @@"

  lemma PlainHeader()
    ensures ReadHeader(PLAIN_HEADER) == Some(Header(1, 1))
  {
    assert Dec(1) == "1";
    var h := Hunk(1, 1, 1, 1, "", []);
    assert HeaderText(h) == PLAIN_HEADER;
    HeaderRoundTrip(h);
  }

  predicate Blank(lines: Text) {
    forall i :: 0 <= i < |lines| ==> LStrip(lines[i]) == ""
  }

  /** Blank lines before the text change nothing. */
  lemma {:induction false} BlanksAreSkipped(blanks: Text, t: Text)
    requires Blank(blanks) && t != []
    ensures LStripText(blanks + t) == LStripText(t)
    ensures Scan(blanks + t, None) == Scan(t, None)
    ensures FirstText(blanks + t) == FirstText(t)
  {
    hide LStrip, IsHeader, Next;
    if blanks == [] {
      assert blanks + t == t;
    } else {
      assert (blanks + t)[1..] == blanks[1..] + t;
      BlankLine(blanks[0]);
      BlanksAreSkipped(blanks[1..], t);
    }
  }

  lemma BlanksNameNothing(key: string, blanks: Text, t: Text)
    requires Blank(blanks) && OwnFileOnly(key, t)
    ensures OwnFileOnly(key, blanks + t)
  {
    hide LStrip, Normalize, IsHeader, Next;
    forall i | 0 <= i < |blanks| ensures !("+++ " <= blanks[i]) {
      BlankLine(blanks[i]);
    }
  }

  lemma IndentedStart(line: string)
    requires LStrip(line) != line
    ensures !("+++ " <= line) && Next(line, None) == None
  {
    assert IsSpace(line[0]);
    IndentedLine(line);
    OutsideHunk(line);
  }

  lemma SomeTokens(t: Text)
    requires |t| >= 2
    ensures EstimateTokens(t) > 0
  {
  }

  /** A patch of one piece that does not fit is sent as that piece. */
  lemma OnePart(patch: Text, maxTokens: int, raw: seq<Text>)
    requires RawHunks(patch) == raw && raw != [] && EstimateTokens(patch) > maxTokens
    requires |raw| == 1 || Total(EstimateTokens, raw) <= maxTokens
    ensures |Subpatches(patch, maxTokens)| == 1 && Subpatches(patch, maxTokens)[0].1 == Flatten(raw)
  {
    hide RawHunks, EstimateTokens, Total, Flatten;
    var none: seq<Text> := [];
    assert none + raw == raw;
    if |raw| == 1 {
      assert none + [raw[0]] == raw;
      assert Pack(EstimateTokens, 1, maxTokens, raw, raw[1..]) == [raw];
    } else {
      PackOfOneBlock(EstimateTokens, |raw|, maxTokens, [], raw);
    }
    assert Headed([raw])[0] == Joined(raw);
  }

  lemma UnionOfOne(path: string, subpatches: seq<(string, Text)>)
    requires |subpatches| == 1
    ensures UnionOver(path, subpatches) == ModifiedLines(path, subpatches[0].1)
  {
    hide ModifiedLines;
    assert subpatches[1..] == [];
  }

  /** An indented hunk header becomes one when the patch is stripped: its lines are found in the part but
      not in the whole. */
  lemma HiddenHunk(path: string, blanks: Text, first: string)
    requires Findable(path) && Blank(blanks) && LStrip(first) != first && IsHeader(LStrip(first))
    ensures var patch := blanks + [first, "+x"];
            && OwnFileOnly(path, patch)
            && ModifiedLines(path, patch) == {}
            && UnionOver(path, Subpatches(patch, 0)) == {ReadHeader(LStrip(first)).value.newStart}
  {
    hide Normalize, ReadHeader, LStrip, Findable, ModifiedLines, CharCount, Scan, UnionOver, Subpatches;
    var patch, header := blanks + [first, "+x"], LStrip(first);
    IndentedStart(first);
    BlanksNameNothing(path, blanks, [first, "+x"]);
    ModifiedLinesAreScanned(path, patch);
    BlanksAreSkipped(blanks, [first, "+x"]);
    ScanPair(first, "+x");
    HiddenHunkPieces(blanks, first);
    SomeTokens(patch);
    OnePart(patch, 0, [[header, "+x"]]);
    UnionOfOne(path, Subpatches(patch, 0));
    assert Flatten([[header, "+x"]]) == [header, "+x"];
    HeaderShape(header);
    ModifiedLinesAreScanned(path, [header, "+x"]);
    ScanPair(header, "+x");
  }

  lemma ScanPair(first: string, second: string)
    ensures Scan([first, second], None)
         == if Next(first, None).Some? && Adds(second) then {Next(first, None).value} else {}
  {
    hide Next, Adds;
    assert [first, second][1..] == [second];
    ScanOne(second, Next(first, None));
  }

  lemma HiddenHunkPieces(blanks: Text, first: string)
    requires Blank(blanks) && IsHeader(LStrip(first))
    ensures RawHunks(blanks + [first, "+x"]) == [[LStrip(first), "+x"]]
  {
    hide ReadHeader, LStrip;
    var header := LStrip(first);
    HeaderShape(header);
    BlanksAreSkipped(blanks, [first, "+x"]);
    var s: Text := [header, "+x"];
    assert LStripText([first, "+x"]) == [header] + [first, "+x"][1..] == s;
    assert RStrip("+x") == "+x";
    assert s[..1] + ["+x"] == s;
    HeaderShape("+x");
    assert s[1..] == ["+x"] && ["+x"][1..] == [];
    assert Cut([header], ["+x"]) == Cut([header] + ["+x"], []) == [s];
  }

  /** White space of any length. */
  function Spaces(n: nat): (s: string)
    ensures |s| == n && forall i :: 0 <= i < n ==> s[i] == ' '
  {
    seq(n, i => ' ')
  }

  /** An indented header of another file takes the first hunk away from this one, when the two are sent
      together. */
  lemma HiddenFile(path: string, blanks: Text, first: string) returns (patch: Text, maxTokens: int)
    requires Findable(path) && Blank(blanks) && LStrip(first) != first
    requires "+++ " <= LStrip(first) && Normalize(LStrip(first)[4..]) != path
    ensures blanks + [first] <= patch && OwnFileOnly(path, patch)
    ensures ModifiedLines(path, patch) == {1} && UnionOver(path, Subpatches(patch, maxTokens)) == {}
  {
    hide Normalize, ReadHeader, LStrip, Findable, ModifiedLines, Scan, UnionOver, Subpatches, RawHunks, CharCount,
      EstimateTokens, Spaces, Adds, Next;
    var name := LStrip(first);
    var raw := [[name, ""], [PLAIN_HEADER, "+x"]];
    maxTokens := Total(EstimateTokens, raw);
    var pad := Spaces(4 * (maxTokens + 1));
    var t: Text := [first, PLAIN_HEADER, "+x", pad];
    patch := blanks + t;
    HiddenFileIsScanned(path, blanks, first, pad);
    HiddenFilePieces(blanks, first, pad);
    PaddedTokens(blanks + [first, PLAIN_HEADER, "+x"], pad, maxTokens);
    assert blanks + [first, PLAIN_HEADER, "+x"] + [pad] == patch;
    OnePart(patch, maxTokens, raw);
    UnionOfOne(path, Subpatches(patch, maxTokens));
    FlattenPair([name, ""], [PLAIN_HEADER, "+x"]);
    assert [name, ""] + [PLAIN_HEADER, "+x"] == [name, "", PLAIN_HEADER, "+x"];
    LinesGoElsewhere(path, name);
  }

  lemma FlattenPair(a: Text, b: Text)
    ensures Flatten([a, b]) == a + b
  {
    assert [a, b][1..] == [b] && [b][1..] == [];
    assert Flatten([b]) == b + [];
  }

  lemma PaddedTokens(t: Text, pad: string, maxTokens: nat)
    requires t != [] && |pad| == 4 * (maxTokens + 1)
    ensures EstimateTokens(t + [pad]) > maxTokens
  {
    CharCountAppend(t, [pad]);
  }

  lemma HiddenFileIsScanned(path: string, blanks: Text, first: string, pad: string)
    requires Findable(path) && Blank(blanks) && LStrip(first) != first
    requires forall i :: 0 <= i < |pad| ==> pad[i] == ' '
    ensures var patch := blanks + [first, PLAIN_HEADER, "+x", pad];
            OwnFileOnly(path, patch) && ModifiedLines(path, patch) == {1}
  {
    hide Normalize, ReadHeader, LStrip, Findable, ModifiedLines, Scan;
    var t: Text := [first, PLAIN_HEADER, "+x", pad];
    PlainHeader();
    IndentedStart(first);
    FileHeaderStarts(PLAIN_HEADER);
    FileHeaderStarts(pad);
    BlanksNameNothing(path, blanks, t);
    ModifiedLinesAreScanned(path, blanks + t);
    BlanksAreSkipped(blanks, t);
    HeaderShape(PLAIN_HEADER);
    assert t == [first] + ([PLAIN_HEADER, "+x"] + [pad]);
    ScanAppend([first], [PLAIN_HEADER, "+x"] + [pad], None);
    ScanAppend([PLAIN_HEADER, "+x"], [pad], None);
    ScanOne(first, None);
    ScanPair(PLAIN_HEADER, "+x");
    ScanOne(pad, NextAfter([PLAIN_HEADER, "+x"], None));
    assert [first][1..] == [];
    assert NextAfter([first], None) == NextAfter([], Next(first, None)) == None;
  }

  lemma HiddenFilePieces(blanks: Text, first: string, pad: string)
    requires Blank(blanks) && "+++ " <= LStrip(first)
    requires forall i :: 0 <= i < |pad| ==> pad[i] == ' '
    ensures RawHunks(blanks + [first, PLAIN_HEADER, "+x", pad]) == [[LStrip(first), ""], [PLAIN_HEADER, "+x"]]
  {
    hide ReadHeader, LStrip, RStripText, Cut;
    var name := LStrip(first);
    var t: Text := [first, PLAIN_HEADER, "+x", pad];
    var s: Text := [name, PLAIN_HEADER, "+x"];
    BlanksAreSkipped(blanks, t);
    assert LStripText(t) == [name] + t[1..] == s + [pad];
    PaddingIsStripped([name, PLAIN_HEADER], pad);
    assert [name, PLAIN_HEADER] + ["+x", pad] == s + [pad] && [name, PLAIN_HEADER] + ["+x"] == s;
    assert s[1..] == [PLAIN_HEADER, "+x"];
    CutPlain(name);
  }

  lemma PaddingIsStripped(t: Text, pad: string)
    requires forall i :: 0 <= i < |pad| ==> pad[i] == ' '
    ensures RStripText(t + ["+x", pad]) == t + ["+x"]
  {
    var all, s := t + ["+x", pad], t + ["+x"];
    RStripSpaces("", pad);
    assert "" + pad == pad && all[..|t| + 1] == s;
    assert RStrip("+x") == "+x" && s[..|t|] == t;
    assert RStripText(s) == s;
  }

  lemma CutPlain(name: string)
    ensures Cut([name], [PLAIN_HEADER, "+x"]) == [[name, ""], [PLAIN_HEADER, "+x"]]
  {
    hide ReadHeader;
    PlainHeader();
    HeaderShape("+x");
    var rest: Text := [PLAIN_HEADER, "+x"];
    assert rest[1..] == ["+x"] && ["+x"][1..] == [];
    assert [PLAIN_HEADER] + ["+x"] == rest && [name] + [""] == [name, ""];
    assert Cut([PLAIN_HEADER], ["+x"]) == Cut([PLAIN_HEADER] + ["+x"], []) == [rest];
    assert Cut([name], rest) == [[name] + [""]] + Cut([PLAIN_HEADER], rest[1..]);
  }

  /** After another file's header, lines without one leave this file's hunks alone. */
  lemma {:induction false} OtherFileUntouched(st: State, lines: Text, path: string)
    requires st.Valid() && path in st.files && st.current.Some? && st.current.value != path
    requires forall i :: 0 <= i < |lines| ==> !("+++ " <= lines[i])
    ensures path in Parse(st, lines).files && Parse(st, lines).files[path] == st.files[path]
    decreases |lines|
  {
    hide ReadHeader;
    if lines != [] {
      OtherFileUntouched(Step(st, lines[0]), lines[1..], path);
    }
  }

  lemma LinesGoElsewhere(path: string, name: string)
    requires Findable(path) && "+++ " <= name && Normalize(name[4..]) != path
    ensures ModifiedLines(path, [name, "", PLAIN_HEADER, "+x"]) == {}
  {
    hide Normalize, Step;
    var names, text := ["--- a/" + path, "+++ b/" + path], [name, "", PLAIN_HEADER, "+x"];
    var rest: Text := ["", PLAIN_HEADER, "+x", ""];
    assert RStrip("+x") == "+x" && text[..3] + ["+x"] == text;
    assert RStripText(text) == text;
    assert Unified(path, text) == names + ([name] + rest);
    ParseAppend(INITIAL, names, [name] + rest);
    PathLines(path);
    var st := INITIAL.EnterFile(path);
    EnterOther(st, name);
    assert ([name] + rest)[1..] == rest && PLAIN_HEADER[0] == '@';
    OtherFileUntouched(Step(st, name), rest, path);
    assert ModifiedIn(FileDiff(path, [])) == {};
  }

  lemma EnterOther(st: State, name: string)
    requires st.Valid() && "+++ " <= name
    ensures Step(st, name) == st.EnterFile(Normalize(name[4..]))
  {
    hide Normalize;
  }

  /** Whatever follows these lines in a patch that names no other file, and whatever the limit, splitting
      keeps the added lines. */
  ghost predicate KeepsMeaning(path: string, start: Text) {
    forall patch, maxTokens | start <= patch && OwnFileOnly(PathKey(path), patch) ::
      UnionOver(path, Subpatches(patch, maxTokens)) == ModifiedLines(path, patch)
  }

  /** For the line that the text of a patch starts with: it keeps the meaning of every patch if and only if
      it is not indented, or is neither a hunk header nor the header of another file behind its
      indentation. */
  lemma SplitPreservesExactlyWhen(path: string, blanks: Text, first: string)
    requires Findable(path) && Blank(blanks) && LStrip(first) != ""
    ensures KeepsMeaning(path, blanks + [first]) <==> Harmless(path, first)
  {
    hide Normalize, ReadHeader, LStrip, ModifiedLines, UnionOver, Subpatches, OwnFileOnly;
    if Harmless(path, first) {
      forall patch, maxTokens | blanks + [first] <= patch && OwnFileOnly(PathKey(path), patch)
        ensures UnionOver(path, Subpatches(patch, maxTokens)) == ModifiedLines(path, patch)
      {
        var t := patch[|blanks|..];
        assert patch == blanks + t && t[0] == first;
        BlanksAreSkipped(blanks, t);
        SplitPreservesModifiedLines(path, patch, maxTokens);
      }
    } else if IsHeader(LStrip(first)) {
      HiddenHunk(path, blanks, first);
      assert blanks + [first] <= blanks + [first, "+x"];
    } else {
      var patch, maxTokens := HiddenFile(path, blanks, first);
    }
  }

  // ----- Overshoot of real sub-patches, and that the bound is tight -----

  lemma {:induction false} PiecesAreNotEmpty(open_: Text, rest: Text)
    requires open_ != [] && (open_[0] != "" || rest != [] || |open_| > 1)
    ensures forall i :: 0 <= i < |Cut(open_, rest)| ==> CharCount(Cut(open_, rest)[i]) > 0
    decreases |rest|
  {
    hide IsHeader;
    if rest != [] {
      if IsHeader(rest[0]) {
        HeaderShape(rest[0]);
        PiecesAreNotEmpty([rest[0]], rest[1..]);
      } else {
        PiecesAreNotEmpty(open_ + [rest[0]], rest[1..]);
      }
    }
  }

  /** Every sub-patch of two or more hunks stays below twice the limit, and within one token per join. */
  lemma SubpatchOvershoot(patch: Text, maxTokens: int, i: nat)
    requires RawHunks(patch) != [] && EstimateTokens(patch) > maxTokens
    ensures var groups := Pack(EstimateTokens, |RawHunks(patch)|, maxTokens, [], RawHunks(patch));
            |Subpatches(patch, maxTokens)| == |groups| &&
            (i < |groups| && |groups[i]| >= 2 ==>
               && EstimateTokens(Subpatches(patch, maxTokens)[i].1) <= maxTokens + |groups[i]| - 1
               && EstimateTokens(Subpatches(patch, maxTokens)[i].1) < 2 * maxTokens)
  {
    hide CharCount, StripText, Cut;
    var raw, s := RawHunks(patch), StripText(patch);
    var groups := Pack(EstimateTokens, |raw|, maxTokens, [], raw);
    if i < |groups| && |groups[i]| >= 2 {
      PackIsFeasible(EstimateTokens, |raw|, maxTokens, [], raw);
      assert [] + raw == raw;
      assert [s[0]] + s[1..] == s;
      PiecesAreNotEmpty([s[0]], s[1..]);
      GroupMembers(groups, i);
      assert Fits(EstimateTokens, |groups[i]|, maxTokens, groups[i]);
      OvershootBound(groups[i], maxTokens);
    }
  }

  // A patch that overshoots as far as it can: some leading text, headers of 15 characters counting their
  // newline, and a last header as long as it takes to fill the limit.

  const LEAD := "aaaaaa"
  const LINE := "@@ -1 +1 @@aaa"

  function LastLine(t: nat): (s: string)
    requires t >= 2
    ensures |s| == 4 * t + 3 && |PLAIN_HEADER| == 11 && PLAIN_HEADER <= s
    ensures !IsSpace(s[|s| - 1])
  {
    PLAIN_HEADER + seq(4 * t - 8, i => 'a')
  }

  function Copies(k: nat): (t: Text)
    ensures |t| == k && forall i :: 0 <= i < k ==> t[i] == LINE
  {
    seq(k, i => LINE)
  }

  function Pieces(k: nat): (hunks: seq<Text>)
    ensures |hunks| == k && forall i :: 0 <= i < k ==> hunks[i] == [LINE, ""]
  {
    seq(k, i => [LINE, ""])
  }

  function TightPatch(k: nat, t: nat): Text
    requires t >= 2
  {
    [LEAD] + (Copies(k) + [LastLine(t)])
  }

  /** Its k + 2 hunks. */
  function TightHunks(k: nat, t: nat): seq<Text>
    requires t >= 2
  {
    [[LEAD, ""]] + (Pieces(k) + [[LastLine(t)]])
  }

  lemma TightHeaders(t: nat)
    requires t >= 2
    ensures IsHeader(LINE) && IsHeader(LastLine(t))
  {
    hide ReadHeader;
    assert Dec(1) == "1";
    var a := Hunk(1, 1, 1, 1, "aaa", []);
    var b := Hunk(1, 1, 1, 1, LastLine(t)[11..], []);
    assert HeaderText(a) == LINE && HeaderText(b) == PLAIN_HEADER + LastLine(t)[11..] == LastLine(t);
    HeaderRoundTrip(a);
    HeaderRoundTrip(b);
  }

  lemma {:induction false} CutCopies(line: string, k: nat, t: nat)
    requires t >= 2
    ensures Cut([line], Copies(k) + [LastLine(t)]) == [[line, ""]] + (Pieces(k) + [[LastLine(t)]])
    decreases k
  {
    hide IsHeader, LastLine;
    TightHeaders(t);
    var rest, last := Copies(k) + [LastLine(t)], [[LastLine(t)]];
    assert [line] + [""] == [line, ""];
    if k == 0 {
      assert rest[1..] == [] && Pieces(0) + last == last;
      assert Cut([LastLine(t)], []) == last;
    } else {
      assert rest[1..] == Copies(k - 1) + [LastLine(t)];
      CutCopies(LINE, k - 1, t);
      assert [[LINE, ""]] + (Pieces(k - 1) + last) == Pieces(k) + last;
    }
  }

  lemma TightRawHunks(k: nat, t: nat)
    requires t >= 2
    ensures RawHunks(TightPatch(k, t)) == TightHunks(k, t)
  {
    hide Cut, LastLine;
    var patch, rest := TightPatch(k, t), Copies(k) + [LastLine(t)];
    assert LStrip(LEAD) == LEAD;
    assert patch[1..] == rest && [LEAD] + rest == patch;
    assert patch[..k + 1] + [LastLine(t)] == patch;
    CutCopies(LEAD, k, t);
  }

  lemma {:induction false} CopiesLength(k: nat, t: nat)
    requires t >= 2
    ensures CharCount(Copies(k) + [LastLine(t)]) == 15 * k + 4 * t + 3
    ensures Total(EstimateTokens, Pieces(k) + [[LastLine(t)]]) == 3 * k + t
    ensures var joined := Flatten(Pieces(k) + [[LastLine(t)]]);
            joined != [] && CharCount(joined) == 16 * k + 4 * t + 3
    decreases k
  {
    hide LastLine;
    var line := LastLine(t);
    var one: Text := [LINE, ""];
    var last: seq<Text> := [[line]];
    PieceLength(line);
    if k == 0 {
      assert Copies(0) + [line] == [line] && Pieces(0) + last == last;
      assert last[1..] == [];
      assert Flatten(last) == [line] + [] == [line];
      assert Total(EstimateTokens, last) == EstimateTokens([line]) + Total(EstimateTokens, []);
    } else {
      CopiesLength(k - 1, t);
      assert Copies(k) + [line] == [LINE] + (Copies(k - 1) + [line]);
      CharCountAppend([LINE], Copies(k - 1) + [line]);
      var rest := Pieces(k - 1) + last;
      assert Pieces(k) + last == [one] + rest;
      assert ([one] + rest)[1..] == rest;
      CharCountAppend(one, Flatten(rest));
    }
  }

  lemma PieceLength(line: string)
    ensures CharCount([LINE, ""]) == 15 && EstimateTokens([LINE, ""]) == 3
    ensures CharCount([LEAD, ""]) == 7 && EstimateTokens([LEAD, ""]) == 1
    ensures CharCount([line]) == |line| && (|line| >= 4 ==> EstimateTokens([line]) == |line| / 4)
  {
    assert [LINE, ""][1..] == [""] && [LEAD, ""][1..] == [""];
    assert CharCount([""]) == 0;
  }

  /** Its sub-patch takes one token more than the limit for every newline that joins its hunks. */
  lemma TightOvershoot(k: nat, t: nat)
    requires t >= 2
    ensures Overshoots(TightPatch(k, t), 1 + 3 * k + t, 0, k + 2)
  {
    hide CharCount, RawHunks, Total, Flatten, Pack, LastLine;
    var patch, raw, limit := TightPatch(k, t), TightHunks(k, t), 1 + 3 * k + t;
    TightRawHunks(k, t);
    TightLengths(k, t);
    assert [] + raw == raw;
    PackOfOneBlock(EstimateTokens, |raw|, limit, [], raw);
    assert Headed([raw])[0] == Joined(raw);
  }

  lemma TightLengths(k: nat, t: nat)
    requires t >= 2
    ensures CharCount(TightPatch(k, t)) == 15 * k + 4 * t + 10
    ensures Total(EstimateTokens, TightHunks(k, t)) == 1 + 3 * k + t
    ensures CharCount(Flatten(TightHunks(k, t))) == 16 * k + 4 * t + 11
  {
    hide LastLine;
    CopiesLength(k, t);
    PieceLength(LastLine(t));
    var rest := Pieces(k) + [[LastLine(t)]];
    CharCountAppend([LEAD], Copies(k) + [LastLine(t)]);
    assert TightHunks(k, t)[1..] == rest;
    CharCountAppend([LEAD, ""], Flatten(rest));
  }

  /** The i-th sub-patch joins n hunks and takes n - 1 tokens more than the limit. */
  ghost predicate Overshoots(patch: Text, limit: int, i: nat, n: nat) {
    var groups, subpatches := Groups(patch, limit), Subpatches(patch, limit);
    && RawHunks(patch) != [] && EstimateTokens(patch) > limit
    && i < |groups| == |subpatches| && |groups[i]| == n
    && EstimateTokens(subpatches[i].1) == limit + n - 1
  }

  // ----- What n hunks cost at least -----

  lemma RangeLength(s: string)
    ensures ReadRange(s).Some? ==> |ReadRange(s).value.1| + 1 <= |s|
  {
  }

  lemma SideLength(s: string, sign: string)
    requires |sign| == 1
    ensures ReadSide(s, sign).Some? ==> |ReadSide(s, sign).value.1| + 3 <= |s|
  {
    hide ReadRange;
    var s1 := SkipSpaces(s);
    if s1.Some? && Expect(s1.value, sign).Some? {
      RangeLength(Expect(s1.value, sign).value);
    }
  }

  lemma HeaderLength(line: string)
    ensures IsHeader(line) ==> |line| >= 11
  {
    hide ReadSide;
    if IsHeader(line) {
      SideLength(line[2..], "-");
      var rest := ReadSide(line[2..], "-").value.1;
      SideLength(rest, "+");
    }
  }

  lemma FirstLineCounts(t: Text)
    ensures t != [] ==> CharCount(t) >= |t[0]|
    ensures |t| >= 2 ==> CharCount(t) >= |t[0]| + 1
  {
  }

  lemma {:induction false} CutEndsLines(open_: Text, rest: Text)
    requires open_ != []
    ensures forall i :: 0 <= i < |Cut(open_, rest)| - 1 ==> |Cut(open_, rest)[i]| >= 2
    decreases |rest|
  {
    hide IsHeader;
    if rest != [] {
      if IsHeader(rest[0]) {
        CutEndsLines([rest[0]], rest[1..]);
      } else {
        CutEndsLines(open_ + [rest[0]], rest[1..]);
      }
    }
  }

  /** Every hunk is at least its header, and its newline unless it is the last. */
  ghost predicate Hunks(hunks: seq<Text>) {
    && (forall i :: 0 <= i < |hunks| ==> EstimateTokens(hunks[i]) >= 1)
    && (forall i :: 0 < i < |hunks| ==> EstimateTokens(hunks[i]) >= 2)
    && (forall i :: 0 < i < |hunks| - 1 ==> EstimateTokens(hunks[i]) >= 3)
  }

  lemma RawHunksAreHunks(patch: Text)
    ensures Hunks(RawHunks(patch))
  {
    hide CharCount, StripText, Cut, IsHeader;
    var s, raw := StripText(patch), RawHunks(patch);
    if raw != [] {
      assert [s[0]] + s[1..] == s;
      PiecesAreNotEmpty([s[0]], s[1..]);
      CutAtHeaders([s[0]], s[1..]);
      CutEndsLines([s[0]], s[1..]);
      forall i | 0 < i < |raw| ensures EstimateTokens(raw[i]) >= 2 && (i < |raw| - 1 ==> EstimateTokens(raw[i]) >= 3) {
        HeaderLength(raw[i][0]);
        FirstLineCounts(raw[i]);
      }
    }
  }

  lemma {:induction false} LaterHunksCost(hunks: seq<Text>, a: nat, b: nat)
    requires Hunks(hunks) && 0 < a < b <= |hunks|
    ensures Total(EstimateTokens, hunks[a..b]) >= 3 * (b - a) - 1
    decreases b - a
  {
    hide EstimateTokens;
    assert hunks[a..b][1..] == hunks[a + 1..b];
    if a + 1 < b {
      LaterHunksCost(hunks, a + 1, b);
    }
  }

  lemma {:induction false} GroupIsSlice(groups: seq<seq<Text>>, i: nat) returns (a: nat)
    requires i < |groups|
    ensures a + |groups[i]| <= |Flatten(groups)| && Flatten(groups)[a..a + |groups[i]|] == groups[i]
    decreases |groups|
  {
    var rest := Flatten(groups[1..]);
    if i == 0 {
      a := 0;
    } else {
      var n := |groups[0]|;
      a := GroupIsSlice(groups[1..], i - 1);
      assert (groups[0] + rest)[n + a..n + a + |groups[i]|] == rest[a..a + |groups[i]|];
      a := n + a;
    }
  }

  /** n hunks never fit in fewer than 3n - 3 tokens. */
  lemma GroupsCost(patch: Text, limit: int, i: nat)
    requires i < |Groups(patch, limit)| && |Groups(patch, limit)[i]| >= 2
    ensures limit >= 3 * |Groups(patch, limit)[i]| - 3
  {
    hide RawHunks, EstimateTokens, Pack;
    var raw, groups := RawHunks(patch), Groups(patch, limit);
    PackIsFeasible(EstimateTokens, |raw|, limit, [], raw);
    assert [] + raw == raw;
    RawHunksAreHunks(patch);
    var a := GroupIsSlice(groups, i);
    var b := a + |groups[i]|;
    assert raw[a..b][1..] == raw[a + 1..b];
    LaterHunksCost(raw, a + 1, b);
    assert Fits(EstimateTokens, |raw|, limit, groups[i]);
  }

  /** For n >= 2 hunks the bound is reached by some patch if and only if the limit leaves room for n hunks. */
  lemma OvershootReachedExactlyWhen(n: nat, limit: int)
    requires n >= 2
    ensures (exists patch, i :: Overshoots(patch, limit, i, n)) <==> limit >= 3 * n - 3
  {
    hide RawHunks, Groups, Subpatches, EstimateTokens;
    if limit >= 3 * n - 3 {
      TightOvershoot(n - 2, limit - 3 * n + 5);
    }
    forall patch, i | Overshoots(patch, limit, i, n) ensures limit >= 3 * n - 3 {
      GroupsCost(patch, limit, i);
    }
  }

  // ----- Chunks and batches -----

  datatype Chunk = Chunk(path: string, language: string, sourceCode: Text, diffText: Text, hunkHeader: string,
                         modified: seq<int>, tokens: nat)

  predicate IsLeast(m: int, s: set<int>) {
    m in s && forall x :: x in s ==> m <= x
  }

  lemma {:induction false} LeastElement(s: set<int>)
    requires s != {}
    ensures exists m :: IsLeast(m, s)
    decreases |s|
  {
    assert (forall m :: m !in s) ==> s == {};
    var m :| m in s;
    if s != {m} {
      LeastElement(s - {m});
      var n :| IsLeast(n, s - {m});
      assert forall x :: x in s ==> x == m || x in s - {m};
      assert IsLeast(if n < m then n else m, s);
    } else {
      assert IsLeast(m, s);
    }
  }

  /** Python's `sorted` of a set. */
  function Ascending(s: set<int>): (xs: seq<int>)
    ensures forall x :: x in xs <==> x in s
    ensures forall i, j :: 0 <= i < j < |xs| ==> xs[i] < xs[j]
    decreases |s|
  {
    if s == {} then []
    else
      LeastElement(s);
      var m :| IsLeast(m, s);
      [m] + Ascending(s - {m})
  }

  /** The new-side lines of a patch, for a file whose contents are not at hand. */
  function Reconstructed(patch: Text): (source: Text)
    ensures source != [] && source[|source| - 1] == ""
  {
    if patch == [] then [""] else SourceLine(patch[0]) + Reconstructed(patch[1..])
  }

  function SourceLine(line: string): seq<string> {
    if "@@" <= line || "---" <= line || "+++" <= line then []
    else if line != "" && (line[0] == '+' || line[0] == ' ') then [line[1..]]
    else []
  }

  /** The texts of the new side that a patch shows in these lines: all but added ones that start with `++`. */
  function Shown(body: seq<BodyLine>): seq<string> {
    if body == [] then []
    else (if body[0].Ctx? || (body[0].Add? && !("++" <= body[0].text)) then [body[0].text] else []) + Shown(body[1..])
  }

  function ShownIn(hunks: seq<Hunk>): seq<string> {
    if hunks == [] then [] else Shown(hunks[0].body) + ShownIn(hunks[1..])
  }

  lemma {:induction false} ReconstructedAppend(a: Text, b: Text)
    ensures Reconstructed(a + b) == Reconstructed(a)[..|Reconstructed(a)| - 1] + Reconstructed(b)
    decreases |a|
  {
    hide SourceLine;
    if a == [] {
      assert a + b == b;
    } else {
      assert (a + b)[1..] == a[1..] + b;
      ReconstructedAppend(a[1..], b);
      var rest, head := Reconstructed(a[1..]), SourceLine(a[0]);
      assert (head + rest)[..|head + rest| - 1] == head + rest[..|rest| - 1];
    }
  }

  lemma ReconstructedOne(line: string)
    ensures Reconstructed([line]) == SourceLine(line) + [""]
  {
    hide SourceLine;
    var none: Text := [];
    assert [line][1..] == none;
  }

  lemma MarkersStart(line: string)
    ensures "@@" <= line ==> line != "" && line[0] == '@'
    ensures "---" <= line ==> line != "" && line[0] == '-'
    ensures "+++" <= line ==> line != "" && line[0] == '+'
  {
  }

  lemma ReconstructedLine(l: BodyLine)
    ensures Reconstructed([LineText(l)]) == Shown([l]) + [""]
  {
    var line := LineText(l);
    ReconstructedOne(line);
    MarkersStart(line);
    assert [l][1..] == [] && Shown([]) == [];
    assert line[0] == match l case Ctx(_) => ' ' case Add(_) => '+' case Del(_) => '-' case NoEol => '\\';
    if l.Add? {
      assert ['+'] + "++" == "+++";
      MarkedPrefix('+', l.text, "++");
      assert line[1..] == l.text;
    } else if l.Ctx? {
      assert line[1..] == l.text;
    }
  }

  lemma ShownHead(body: seq<BodyLine>)
    requires body != []
    ensures Shown(body) == Shown([body[0]]) + Shown(body[1..])
  {
    assert [body[0]][1..] == [];
  }

  lemma {:induction false} ReconstructedBody(body: seq<BodyLine>)
    ensures Reconstructed(BodyText(body)) == Shown(body) + [""]
  {
    hide LineText, Reconstructed, Shown;
    if body == [] {
      assert Reconstructed([]) == [""] by { NothingToReconstruct(); }
      assert Shown([]) == [] by { NothingShown(); }
    } else {
      var first, rest := Shown([body[0]]), Shown(body[1..]);
      ReconstructedLine(body[0]);
      ReconstructedBody(body[1..]);
      ReconstructedAppend([LineText(body[0])], BodyText(body[1..]));
      ShownHead(body);
      assert (first + [""])[..|first|] == first;
      assert first + (rest + [""]) == first + rest + [""];
    }
  }

  lemma NothingShown()
    ensures Shown([]) == []
  {
  }

  lemma ReconstructedHeader(h: Hunk)
    ensures Reconstructed([HeaderText(h)]) == [""]
  {
    hide RangeText;
    assert HeaderText(h)[..2] == "@@";
    ReconstructedOne(HeaderText(h));
  }

  lemma ReconstructedHunk(h: Hunk)
    ensures Reconstructed(HunkText(h)) == Shown(h.body) + [""]
  {
    hide Reconstructed, HeaderText, Shown, BodyText;
    ReconstructedHeader(h);
    ReconstructedBody(h.body);
    ReconstructedAppend([HeaderText(h)], BodyText(h.body));
    assert [""][..0] == [] && [] + (Shown(h.body) + [""]) == Shown(h.body) + [""];
  }

  /** Without the contents at hand, the source is what the patch shows of the new file. */
  lemma {:induction false} ReconstructedIsNewSide(hunks: seq<Hunk>)
    ensures Reconstructed(HunksText(hunks)) == ShownIn(hunks) + [""]
  {
    hide Reconstructed, HunkText, Shown;
    if hunks == [] {
      assert Reconstructed([]) == [""] by { NothingToReconstruct(); }
    } else {
      var shown, rest := Shown(hunks[0].body), ShownIn(hunks[1..]);
      ReconstructedHunk(hunks[0]);
      ReconstructedIsNewSide(hunks[1..]);
      ReconstructedAppend(HunkText(hunks[0]), HunksText(hunks[1..]));
      assert (shown + [""])[..|shown|] == shown;
      assert shown + (rest + [""]) == shown + rest + [""];
    }
  }

  lemma NothingToReconstruct()
    ensures Reconstructed([]) == [""]
  {
  }

  /** The file's contents when there are any, else what its patch shows of them. */
  function SourceCode(contents: Option<Text>, patch: Text): Text {
    if contents.Some? && CharCount(contents.value) > 0 then contents.value else Reconstructed(patch)
  }

  method PreprocessFile(path: string, language: string, contents: Option<Text>, patch: Text,
                        maxTokens: int := MAX_CHUNK_TOKENS)
    returns (chunks: seq<Chunk>)
    ensures var sourceCode := SourceCode(contents, patch);
            var subpatches := Subpatches(patch, maxTokens);
            && |chunks| == |subpatches|
            && forall i :: 0 <= i < |chunks| ==>
                 && chunks[i].path == path && chunks[i].language == language && chunks[i].sourceCode == sourceCode
                 && chunks[i].hunkHeader == subpatches[i].0 && chunks[i].diffText == subpatches[i].1
                 && chunks[i].modified == Ascending(ModifiedLines(path, subpatches[i].1))
                 && chunks[i].tokens == EstimateTokens(subpatches[i].1)
    ensures contents.Some? && CharCount(contents.value) > 0 ==>
              forall c :: c in chunks ==> c.sourceCode == contents.value
  {
    hide Subpatches, ModifiedLines, EstimateTokens, CharCount, Reconstructed, Ascending;
    var sourceCode := SourceCode(contents, patch);
    var subpatches := SplitPatch(patch, maxTokens);
    chunks := [];
    for i := 0 to |subpatches|
      invariant |chunks| == i
      invariant forall j :: 0 <= j < i ==>
                  chunks[j] == Chunk(path, language, sourceCode, subpatches[j].1, subpatches[j].0,
                                     Ascending(ModifiedLines(path, subpatches[j].1)), EstimateTokens(subpatches[j].1))
    {
      var (header, text) := subpatches[i];
      var modified := FindModified(path, text);
      chunks := chunks + [Chunk(path, language, sourceCode, text, header, Ascending(modified), EstimateTokens(text))];
    }
  }

  method FindModified(path: string, text: Text) returns (modified: set<int>)
    ensures modified == ModifiedLines(path, text)
  {
    hide Unified, Parsed;
    var parsed := ParseUnifiedDiff(Unified(path, text));
    modified := {};
    if path in parsed {
      var hunks := parsed[path].hunks;
      for i := 0 to |hunks|
        invariant forall n :: n in modified <==> exists j :: 0 <= j < i && n in hunks[j].modified
      {
        modified := modified + hunks[i].modified;
      }
      forall n ensures n in modified <==> n in ModifiedIn(parsed[path]) {
        if n in modified {
          var j :| 0 <= j < |hunks| && n in hunks[j].modified;
          assert n in parsed[path].hunks[j].modified;
        }
      }
    }
  }

  function ChunkTokens(c: Chunk): nat {
    if c.tokens != 0 then c.tokens else EstimateTokens(c.diffText)
  }

  method BatchChunks(chunks: seq<Chunk>, maxChunks: int := MAX_CHUNKS_PER_BATCH, maxTokens: int := MAX_BATCH_TOKENS)
    returns (batches: seq<seq<Chunk>>)
    ensures batches == Pack(ChunkTokens, maxChunks, maxTokens, [], chunks)
  {
    hide CharCount, Total, ChunkTokens, Pack;
    batches := [];
    var current: seq<Chunk> := [];
    var currentTokens := 0;
    var i := 0;
    ChunkTotals([], Chunk("", "", [], [], "", [], 0));
    assert chunks[0..] == chunks;
    while i < |chunks|
      invariant 0 <= i <= |chunks|
      invariant currentTokens == Total(ChunkTokens, current)
      invariant batches + Pack(ChunkTokens, maxChunks, maxTokens, current, chunks[i..])
             == Pack(ChunkTokens, maxChunks, maxTokens, [], chunks)
    {
      var chunk := chunks[i];
      var tokens := ChunkTokens(chunk);
      PackStep(ChunkTokens, maxChunks, maxTokens, current, chunks, i);
      ChunkTotals(current, chunk);
      if current != [] && (|current| >= maxChunks || currentTokens + tokens > maxTokens) {
        batches := batches + [current];
        current := [chunk];
        currentTokens := tokens;
      } else {
        current := current + [chunk];
        currentTokens := currentTokens + tokens;
      }
      i := i + 1;
    }
    PackStep(ChunkTokens, maxChunks, maxTokens, current, chunks, i);
    if current != [] {
      batches := batches + [current];
    }
  }

  lemma ChunkTotals(current: seq<Chunk>, chunk: Chunk)
    ensures Total(ChunkTokens, current + [chunk]) == Total(ChunkTokens, current) + ChunkTokens(chunk)
    ensures Total(ChunkTokens, [chunk]) == ChunkTokens(chunk) && Total(ChunkTokens, []) == 0
  {
    TotalAppend(ChunkTokens, current, [chunk]);
    assert Total(ChunkTokens, [chunk]) == ChunkTokens(chunk) + Total(ChunkTokens, []);
  }

  /** Tokens of the chunk's own text. */
  function TextTokens(c: Chunk): nat {
    EstimateTokens(c.diffText)
  }

  lemma {:induction false} SameTotals(chunks: seq<Chunk>)
    requires forall c :: c in chunks ==> c.tokens == 0 || c.tokens == TextTokens(c)
    ensures Total(ChunkTokens, chunks) == Total(TextTokens, chunks)
  {
    hide EstimateTokens;
    if chunks != [] {
      assert forall c :: c in chunks[1..] ==> c in chunks;
      SameTotals(chunks[1..]);
    }
  }

  /** With the counts that preprocessing gives, or none, what is sent together keeps both limits by its text. */
  lemma {:induction false} BatchesFitByText(chunks: seq<Chunk>, maxChunks: int, maxTokens: int, i: nat)
    requires forall c :: c in chunks ==> c.tokens == 0 || c.tokens == TextTokens(c)
    ensures var batches := Pack(ChunkTokens, maxChunks, maxTokens, [], chunks);
            i < |batches| && |batches[i]| > 1 ==>
              |batches[i]| <= maxChunks && Total(TextTokens, batches[i]) <= maxTokens
  {
    hide ChunkTokens, TextTokens;
    var batches := Pack(ChunkTokens, maxChunks, maxTokens, [], chunks);
    PackIsFeasible(ChunkTokens, maxChunks, maxTokens, [], chunks);
    assert [] + chunks == chunks;
    if i < |batches| && |batches[i]| > 1 {
      assert Fits(ChunkTokens, maxChunks, maxTokens, batches[i]);
      BatchMembers(batches, i);
      SameTotals(batches[i]);
    }
  }

  lemma {:induction false} BatchMembers(batches: seq<seq<Chunk>>, i: nat)
    requires i < |batches|
    ensures forall c :: c in batches[i] ==> c in Flatten(batches)
  {
    if i > 0 {
      BatchMembers(batches[1..], i - 1);
    }
  }

  /** The batches give back the chunks in order, each within both limits or a single chunk, and no other
      way of batching them in order under those limits needs fewer. */
  lemma BatchingIsOptimal(chunks: seq<Chunk>, maxChunks: int, maxTokens: int, other: seq<seq<Chunk>>)
    ensures Feasible(ChunkTokens, maxChunks, maxTokens, Pack(ChunkTokens, maxChunks, maxTokens, [], chunks), chunks)
    ensures Feasible(ChunkTokens, maxChunks, maxTokens, other, chunks) ==>
              |Pack(ChunkTokens, maxChunks, maxTokens, [], chunks)| <= |other|
  {
    PackIsFeasible(ChunkTokens, maxChunks, maxTokens, [], chunks);
    assert [] + chunks == chunks;
    if Feasible(ChunkTokens, maxChunks, maxTokens, other, chunks) {
      GreedyIsOptimal(ChunkTokens, maxChunks, maxTokens, chunks, other);
    }
  }
}
