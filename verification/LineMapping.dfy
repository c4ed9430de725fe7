/**
 The unified-diff parser: from text to the line numbers of each hunk.
 */
module LineMapping {
  import opened Options
  import opened Text

  datatype DiffHunk = DiffHunk(newStart: int, newCount: int, modified: set<int>, context: set<int>) {

    function AllLines(): set<int> {
      modified + context
    }
  }

  datatype FileDiff = FileDiff(path: string, hunks: seq<DiffHunk>)

  type FileDiffs = map<string, FileDiff>

  // ----- Hunk headers -----

  datatype Range = Range(start: nat, count: Option<nat>)

  /** Numbers captured from a hunk header. */
  datatype Header = Header(newStart: nat, newCount: nat)

  /** One or more white-space characters. */
  function SkipSpaces(s: string): Option<string> {
    var n := Span(s, IsSpace);
    if n == 0 then None else Some(s[n..])
  }

  function Expect(s: string, token: string): Option<string> {
    if token <= s then Some(s[|token|..]) else None
  }

  /** Digits, then optionally a comma and more digits. */
  function ReadRange(s: string): Option<(Range, string)> {
    var n := Span(s, IsDigit);
    if n == 0 then None
    else
      var start, rest := ToNat(s[..n]), s[n..];
      var m := if rest != "" && rest[0] == ',' then Span(rest[1..], IsDigit) else 0;
      if m == 0 then Some((Range(start, None), rest))
      else Some((Range(start, Some(ToNat(rest[1..][..m]))), rest[1..][m..]))
  }

  /** White space, the sign, and a range. */
  function ReadSide(s: string, sign: string): Option<(Range, string)> {
    var s1 :- SkipSpaces(s);
    var s2 :- Expect(s1, sign);
    ReadRange(s2)
  }

  /** `@@ -old[,count] +new[,count] @@`, with anything after it. */
  function ReadHeader(line: string): Option<Header> {
    var s1 :- Expect(line, "@@");
    var (_, s2) :- ReadSide(s1, "-");
    var (new_, s3) :- ReadSide(s2, "+");
    var s4 :- SkipSpaces(s3);
    var _ :- Expect(s4, "@@");
    Some(Header(new_.start, if new_.count.Some? then new_.count.value else 1))
  }

  predicate IsHeader(line: string) {
    ReadHeader(line).Some?
  }

  // ----- File headers -----

  function DropSlashes(s: string): string {
    s[Span(s, c => c == '/')..]
  }

  /** The path key for what follows `+++ `. */
  function Normalize(s: string): string {
    var raw := Before(Before(Strip(s), '\t'), ' ');
    DropSlashes(if "b/" <= raw || "a/" <= raw then raw[2..] else raw)
  }

  // ----- The parser's state and one line of input -----

  /** `inHunk` says the current hunk is the last one of the current file. */
  datatype State = State(files: FileDiffs, current: Option<string>, inHunk: bool, newLine: int) {

    predicate Valid() {
      && (current.Some? ==> current.value in files)
      && (inHunk ==> current.Some? && files[current.value].hunks != [])
    }

    function Hunk(): DiffHunk
      requires Valid() && inHunk
    {
      var hunks := files[current.value].hunks;
      hunks[|hunks| - 1]
    }

    /** The same state with the current hunk replaced, one new-file line further. */
    function Record(h: DiffHunk): (s: State)
      requires Valid() && inHunk
      ensures s.Valid() && s.inHunk && s.Hunk() == h && s.current == current
    {
      var file := files[current.value];
      var hunks := file.hunks[|file.hunks| - 1 := h];
      State(files[current.value := file.(hunks := hunks)], current, true, newLine + 1)
    }

    function EnterFile(key: string): (s: State)
      ensures s.Valid()
    {
      State(if key in files then files else files[key := FileDiff(key, [])], Some(key), false, newLine)
    }

    function EnterHunk(header: Header): (s: State)
      requires Valid() && current.Some?
      ensures s.Valid()
    {
      var file := files[current.value];
      var h := DiffHunk(header.newStart, header.newCount, {}, {});
      State(files[current.value := file.(hunks := file.hunks + [h])], current, true, header.newStart)
    }
  }

  const INITIAL := State(map[], None, false, 0)

  function Step(st: State, line: string): (r: State)
    requires st.Valid()
    ensures r.Valid()
  {
    if "+++ " <= line then st.EnterFile(Normalize(line[4..]))
    else if "--- " <= line then st.(inHunk := false)
    else if "@@" <= line then
      if ReadHeader(line).Some? && st.current.Some? && st.current.value != ""
      then st.EnterHunk(ReadHeader(line).value)
      else st.(inHunk := false)
    else if st.inHunk && "+" <= line then
      st.Record(st.Hunk().(modified := st.Hunk().modified + {st.newLine}))
    else if st.inHunk && " " <= line then
      st.Record(st.Hunk().(context := st.Hunk().context + {st.newLine}))
    else st
  }

  /** A line is classified by its first character, and by its first four for file headers.  One without a marker
      changes nothing, and one that only looks like a hunk header ends the hunk. */
  lemma StepByFirstChar(st: State, line: string)
    requires st.Valid()
    ensures line == "" || (line[0] != '+' && line[0] != '-' && line[0] != '@' && line[0] != ' ') ==> Step(st, line) == st
    ensures line != "" && line[0] == '-' ==> Step(st, line) == if "--- " <= line then st.(inHunk := false) else st
    ensures line != "" && (line[0] == '+' || line[0] == ' ') && !st.inHunk && !("+++ " <= line) ==> Step(st, line) == st
    ensures line != "" && line[0] == '+' && !("+++ " <= line) && st.inHunk ==>
              Step(st, line) == st.Record(st.Hunk().(modified := st.Hunk().modified + {st.newLine}))
    ensures line != "" && line[0] == ' ' && st.inHunk ==>
              Step(st, line) == st.Record(st.Hunk().(context := st.Hunk().context + {st.newLine}))
    ensures "+++ " <= line ==> Step(st, line).current == Some(Normalize(line[4..])) && !Step(st, line).inHunk
    ensures "@@" <= line && ReadHeader(line).Some? && st.current.Some? && st.current.value != "" ==>
              var r, h := Step(st, line), ReadHeader(line).value;
              r.inHunk && r.newLine == h.newStart && r.Hunk() == DiffHunk(h.newStart, h.newCount, {}, {})
    ensures "@@" <= line && (ReadHeader(line).None? || st.current.None? || st.current.value == "") ==>
              Step(st, line) == st.(inHunk := false)
  {
    hide ReadHeader, Normalize;
    assert "+++ " <= line ==> line[0] == '+';
    assert "--- " <= line ==> line[0] == '-';
    assert "@@" <= line ==> line[0] == '@';
    assert "+" <= line <==> line != "" && line[0] == '+' by {
      if line != "" && line[0] == '+' { assert line[..1] == "+"; }
    }
    assert " " <= line <==> line != "" && line[0] == ' ' by {
      if line != "" && line[0] == ' ' { assert line[..1] == " "; }
    }
  }

  function Parse(st: State, lines: Text): (r: State)
    requires st.Valid()
    ensures r.Valid()
    decreases |lines|
  {
    if lines == [] then st else Parse(Step(st, lines[0]), lines[1..])
  }

  function Parsed(lines: Text): FileDiffs {
    Parse(INITIAL, lines).files
  }

  lemma {:induction false} ParseAppend(st: State, a: Text, b: Text)
    requires st.Valid()
    ensures Parse(st, a + b) == Parse(Parse(st, a), b)
    decreases |a|
  {
    if a == [] {
      assert a + b == b;
    } else {
      assert (a + b)[1..] == a[1..] + b;
      ParseAppend(Step(st, a[0]), a[1..], b);
    }
  }

  lemma ParseHead(st: State, lines: Text, i: nat)
    requires st.Valid() && i < |lines|
    ensures Parse(st, lines[i..]) == Parse(Step(st, lines[i]), lines[i + 1..])
  {
    hide Step;
    assert lines[i..][0] == lines[i] && lines[i..][1..] == lines[i + 1..];
  }

  /** Replacing the hunk that is being filled, as the loop does it. */
  lemma RecordInPlace(st: State, h: DiffHunk)
    requires st.Valid() && st.inHunk
    ensures var key := st.current.value;
            var file := st.files[key];
            st.Record(h) == State(st.files[key := FileDiff(file.path, file.hunks[|file.hunks| - 1 := h])],
                                  st.current, true, st.newLine + 1)
  {
  }

  method ParseUnifiedDiff(lines: Text) returns (files: FileDiffs)
    ensures files == Parsed(lines)
  {
    hide Parse, ReadHeader, Normalize, State.Record;
    files := map[];
    var currentFile: Option<string> := None;
    var inHunk := false;
    var newLine := 0;
    var i := 0;
    NothingLeft(INITIAL, lines);
    while i < |lines|
      invariant 0 <= i <= |lines|
      invariant State(files, currentFile, inHunk, newLine).Valid()
      invariant Parse(State(files, currentFile, inHunk, newLine), lines[i..]) == Parse(INITIAL, lines)
    {
      var line := lines[i];
      ghost var before := State(files, currentFile, inHunk, newLine);
      ParseHead(before, lines, i);
      if "+++ " <= line {
        var key := Normalize(line[4..]);
        currentFile := Some(key);
        if key !in files {
          files := files[key := FileDiff(key, [])];
        }
        inHunk := false;
      } else if "--- " <= line {
        inHunk := false;
      } else if "@@" <= line {
        var header := ReadHeader(line);
        if header.Some? && currentFile.Some? && currentFile.value != "" {
          var file := files[currentFile.value];
          var hunk := DiffHunk(header.value.newStart, header.value.newCount, {}, {});
          files := files[currentFile.value := FileDiff(file.path, file.hunks + [hunk])];
          inHunk, newLine := true, header.value.newStart;
        } else {
          inHunk := false;
        }
      } else if inHunk {
        var file := files[currentFile.value];
        var last := |file.hunks| - 1;
        var hunk := file.hunks[last];
        if "+" <= line {
          hunk := hunk.(modified := hunk.modified + {newLine});
          RecordInPlace(before, hunk);
          files := files[currentFile.value := FileDiff(file.path, file.hunks[last := hunk])];
          newLine := newLine + 1;
        } else if " " <= line {
          hunk := hunk.(context := hunk.context + {newLine});
          RecordInPlace(before, hunk);
          files := files[currentFile.value := FileDiff(file.path, file.hunks[last := hunk])];
          newLine := newLine + 1;
        }
      }
      assert State(files, currentFile, inHunk, newLine) == Step(before, line);
      i := i + 1;
    }
    NothingLeft(State(files, currentFile, inHunk, newLine), lines);
  }

  lemma NothingLeft(st: State, lines: Text)
    requires st.Valid()
    ensures Parse(st, lines[|lines|..]) == st && lines[0..] == lines
  {
  }

  // ----- What every parsed hunk looks like, for any text at all -----

  /** Modified and context lines are disjoint and together are exactly the lines from the start to `end`. */
  ghost predicate Covers(h: DiffHunk, end: int) {
    && 0 <= h.newStart <= end
    && h.modified !! h.context
    && forall n :: n in h.AllLines() <==> h.newStart <= n < end
  }

  ghost predicate OneInterval(h: DiffHunk) {
    exists end :: Covers(h, end)
  }

  ghost predicate AllIntervals(st: State)
    requires st.Valid()
  {
    && (forall k, i :: k in st.files && 0 <= i < |st.files[k].hunks| ==> OneInterval(st.files[k].hunks[i]))
    && (st.inHunk ==> Covers(st.Hunk(), st.newLine))
  }

  lemma CoversOneMore(h: DiffHunk, end: int)
    requires Covers(h, end)
    ensures Covers(h.(modified := h.modified + {end}), end + 1)
    ensures Covers(h.(context := h.context + {end}), end + 1)
  {
    assert end !in h.AllLines();
    var m, c := h.(modified := h.modified + {end}), h.(context := h.context + {end});
    assert m.AllLines() == h.AllLines() + {end} == c.AllLines();
  }

  lemma RecordKeepsIntervals(st: State, h: DiffHunk)
    requires st.Valid() && st.inHunk && AllIntervals(st) && Covers(h, st.newLine + 1)
    ensures AllIntervals(st.Record(h))
  {
    hide Covers;
    var r := st.Record(h);
    forall k, i | k in r.files && 0 <= i < |r.files[k].hunks| ensures OneInterval(r.files[k].hunks[i]) {
      if k == r.current.value && i == |r.files[k].hunks| - 1 {
        assert r.files[k].hunks[i] == h;
      }
    }
  }

  lemma EnterHunkKeepsIntervals(st: State, header: Header)
    requires st.Valid() && st.current.Some? && AllIntervals(st)
    ensures AllIntervals(st.EnterHunk(header))
  {
    var r := st.EnterHunk(header);
    assert Covers(r.Hunk(), r.newLine);
    hide Covers;
    forall k, i | k in r.files && 0 <= i < |r.files[k].hunks| ensures OneInterval(r.files[k].hunks[i]) {
      if k == r.current.value && i == |r.files[k].hunks| - 1 {
        assert r.files[k].hunks[i] == r.Hunk();
      }
    }
  }

  lemma StepKeepsIntervals(st: State, line: string)
    requires st.Valid() && AllIntervals(st)
    ensures AllIntervals(Step(st, line))
  {
    if "+++ " <= line || "--- " <= line {
    } else if "@@" <= line {
      if ReadHeader(line).Some? && st.current.Some? {
        EnterHunkKeepsIntervals(st, ReadHeader(line).value);
      }
    } else if st.inHunk {
      var h := st.Hunk();
      CoversOneMore(h, st.newLine);
      RecordKeepsIntervals(st, h.(modified := h.modified + {st.newLine}));
      RecordKeepsIntervals(st, h.(context := h.context + {st.newLine}));
    }
  }

  lemma {:induction false} ParseKeepsIntervals(st: State, lines: Text)
    requires st.Valid() && AllIntervals(st)
    ensures AllIntervals(Parse(st, lines))
    decreases |lines|
  {
    if lines != [] {
      StepKeepsIntervals(st, lines[0]);
      ParseKeepsIntervals(Step(st, lines[0]), lines[1..]);
    }
  }

  /** Whatever the text, each hunk's modified and context lines partition one run of consecutive lines
      that starts where its header says. */
  lemma EveryHunkIsOneInterval(lines: Text, path: string, i: nat)
    requires path in Parsed(lines) && i < |Parsed(lines)[path].hunks|
    ensures OneInterval(Parsed(lines)[path].hunks[i])
  {
    ParseKeepsIntervals(INITIAL, lines);
  }
}
