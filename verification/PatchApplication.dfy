/**
 Unified diffs as POSIX.1-2017 writes them (`diff` utility, "Diff -u or -U Output Format"), and what
 applying one to a file means.  The parser's line numbers are proved to be the line numbers of the
 patched file.
 */
module PatchApplication {
  import opened Options
  import opened Text
  import opened LineMapping

  datatype BodyLine = Ctx(text: string) | Add(text: string) | Del(text: string) | NoEol

  datatype Hunk = Hunk(oldStart: nat, oldCount: nat, newStart: nat, newCount: nat, section: string,
                       body: seq<BodyLine>)

  datatype FilePatch = FilePatch(oldName: string, newName: string, hunks: seq<Hunk>)

  // ----- Writing a diff -----

  function LineText(l: BodyLine): string {
    match l
    case Ctx(t) => " " + t
    case Add(t) => "+" + t
    case Del(t) => "-" + t
    case NoEol => "\\ No newline at end of file"
  }

  function BodyText(body: seq<BodyLine>): Text {
    if body == [] then [] else [LineText(body[0])] + BodyText(body[1..])
  }

  /** The count is left out when it is one. */
  function RangeText(start: nat, count: nat): string {
    if count == 1 then Dec(start) else Dec(start) + "," + Dec(count)
  }

  function HeaderText(h: Hunk): string {
    "@@ -" + RangeText(h.oldStart, h.oldCount) + " +" + RangeText(h.newStart, h.newCount) + " @@" + h.section
  }

  function HunkText(h: Hunk): Text {
    [HeaderText(h)] + BodyText(h.body)
  }

  function HunksText(hunks: seq<Hunk>): Text {
    if hunks == [] then [] else HunkText(hunks[0]) + HunksText(hunks[1..])
  }

  function FileText(f: FilePatch): Text {
    ["--- " + f.oldName, "+++ " + f.newName] + HunksText(f.hunks)
  }

  function DiffText(d: seq<FilePatch>): Text {
    if d == [] then [] else FileText(d[0]) + DiffText(d[1..])
  }

  // ----- What the numbers should be -----

  predicate OnNewSide(l: BodyLine) {
    l.Ctx? || l.Add?
  }

  /** Lines of the new file in a hunk body. */
  function NewTexts(body: seq<BodyLine>): seq<string> {
    if body == [] then []
    else (if OnNewSide(body[0]) then [body[0].text] else []) + NewTexts(body[1..])
  }

  function OldTexts(body: seq<BodyLine>): seq<string> {
    if body == [] then []
    else (if body[0].Ctx? || body[0].Del? then [body[0].text] else []) + OldTexts(body[1..])
  }

  /** Numbers of the added lines when the first new-side line is number `n`. */
  function Added(body: seq<BodyLine>, n: int): set<int> {
    if body == [] then {}
    else (if body[0].Add? then {n} else {}) + Added(body[1..], if OnNewSide(body[0]) then n + 1 else n)
  }

  function Unchanged(body: seq<BodyLine>, n: int): set<int> {
    if body == [] then {}
    else (if body[0].Ctx? then {n} else {}) + Unchanged(body[1..], if OnNewSide(body[0]) then n + 1 else n)
  }

  function Expected(h: Hunk): DiffHunk {
    DiffHunk(h.newStart, h.newCount, Added(h.body, h.newStart), Unchanged(h.body, h.newStart))
  }

  function ExpectedHunks(hunks: seq<Hunk>): (r: seq<DiffHunk>)
    ensures |r| == |hunks|
  {
    seq(|hunks|, i requires 0 <= i < |hunks| => Expected(hunks[i]))
  }

  /** The line looks like a file header once its marker is in front. */
  predicate Trap(l: BodyLine) {
    (l.Add? && "++ " <= l.text) || (l.Del? && "-- " <= l.text)
  }

  /** No added line looks like a `+++` header, and nothing of the new file follows a deleted line that
      looks like a `---` header. */
  predicate Safe(body: seq<BodyLine>) {
    body != [] ==>
      && (Trap(body[0]) ==> body[0].Del? && NewTexts(body[1..]) == [])
      && Safe(body[1..])
  }

  predicate SafeFile(f: FilePatch) {
    Normalize(f.newName) != "" && forall i :: 0 <= i < |f.hunks| ==> Safe(f.hunks[i].body)
  }

  predicate AllSafe(d: seq<FilePatch>) {
    forall i :: 0 <= i < |d| ==> SafeFile(d[i])
  }

  // ----- Headers are read back -----

  lemma ReadBare(digits: string, rest: string)
    requires digits != "" && forall i :: 0 <= i < |digits| ==> IsDigit(digits[i])
    requires rest != "" && !IsDigit(rest[0]) && rest[0] != ','
    ensures ReadRange(digits + rest) == Some((Range(ToNat(digits), None), rest))
  {
    var s := digits + rest;
    SpanOfPrefix(digits, rest, IsDigit);
    assert s[..|digits|] == digits && s[|digits|..] == rest;
  }

  lemma ReadCounted(digits: string, count: string, rest: string)
    requires digits != "" && forall i :: 0 <= i < |digits| ==> IsDigit(digits[i])
    requires count != "" && forall i :: 0 <= i < |count| ==> IsDigit(count[i])
    requires rest != "" && !IsDigit(rest[0])
    ensures ReadRange(digits + ("," + (count + rest))) == Some((Range(ToNat(digits), Some(ToNat(count))), rest))
  {
    var tail := "," + (count + rest);
    var s := digits + tail;
    SpanOfPrefix(digits, tail, IsDigit);
    assert s[..|digits|] == digits && s[|digits|..] == tail;
    assert tail[1..] == count + rest;
    SpanOfPrefix(count, rest, IsDigit);
    assert tail[1..][..|count|] == count && tail[1..][|count|..] == rest;
  }

  lemma RangeRoundTrip(start: nat, count: nat, rest: string)
    requires rest != "" && rest[0] == ' '
    ensures ReadRange(RangeText(start, count) + rest)
         == Some((Range(start, if count == 1 then None else Some(count)), rest))
  {
    hide ReadRange, Dec, ToNat;
    DecRoundTrip(start);
    if count == 1 {
      ReadBare(Dec(start), rest);
    } else {
      DecRoundTrip(count);
      ReadCounted(Dec(start), Dec(count), rest);
      assert RangeText(start, count) + rest == Dec(start) + ("," + (Dec(count) + rest));
    }
  }

  lemma OneSpace(s: string)
    requires s != "" && !IsSpace(s[0])
    ensures SkipSpaces(" " + s) == Some(s)
  {
    SpanOfPrefix(" ", s, IsSpace);
    assert (" " + s)[1..] == s;
  }

  lemma SideRoundTrip(sign: string, start: nat, count: nat, rest: string)
    requires |sign| == 1 && !IsSpace(sign[0])
    requires rest != "" && rest[0] == ' '
    ensures ReadSide(" " + (sign + (RangeText(start, count) + rest)), sign)
         == Some((Range(start, if count == 1 then None else Some(count)), rest))
  {
    hide ReadRange, RangeText, SkipSpaces;
    var s2 := RangeText(start, count) + rest;
    var s1 := sign + s2;
    OneSpace(s1);
    assert s1[..1] == sign && s1[1..] == s2;
    RangeRoundTrip(start, count, rest);
  }

  lemma HeaderRoundTrip(h: Hunk)
    ensures ReadHeader(HeaderText(h)) == Some(Header(h.newStart, h.newCount))
  {
    hide ReadSide, RangeText, SkipSpaces;
    var close := "@@" + h.section;
    var s3 := " " + close;
    var s2 := " " + ("+" + (RangeText(h.newStart, h.newCount) + s3));
    var s1 := " " + ("-" + (RangeText(h.oldStart, h.oldCount) + s2));
    var line := "@@" + s1;
    assert HeaderText(h) == line;
    assert line[..2] == "@@" && line[2..] == s1;
    SideRoundTrip("-", h.oldStart, h.oldCount, s2);
    SideRoundTrip("+", h.newStart, h.newCount, s3);
    OneSpace(close);
    assert close[..2] == "@@";
  }

  // ----- Which lines are headers at all -----

  predicate Blanks(s: string) {
    s != "" && forall i :: 0 <= i < |s| ==> IsSpace(s[i])
  }

  predicate Digits(s: string) {
    s != "" && forall i :: 0 <= i < |s| ==> IsDigit(s[i])
  }

  /** The text of a range: a number, or two with a comma between them. */
  ghost predicate IsRange(s: string, r: Range) {
    match r.count
    case None => Digits(s) && r.start == ToNat(s)
    case Some(count) => exists a, b :: Counted(s, a, b) && r.start == ToNat(a) && count == ToNat(b)
  }

  predicate Counted(s: string, a: string, b: string) {
    Digits(a) && Digits(b) && s == a + ("," + b)
  }

  lemma ReadsRange(s: string, r: Range, rest: string)
    requires IsRange(s, r) && rest != "" && IsSpace(rest[0])
    ensures ReadRange(s + rest) == Some((r, rest))
  {
    hide ReadRange, ToNat;
    if r.count.None? {
      ReadBare(s, rest);
    } else {
      var a, b :| Counted(s, a, b) && r.start == ToNat(a) && r.count.value == ToNat(b);
      ReadCounted(a, b, rest);
      assert s + rest == a + ("," + (b + rest));
    }
  }

  lemma RangeWasThere(s: string) returns (text: string)
    requires ReadRange(s).Some?
    ensures var (r, rest) := ReadRange(s).value; IsRange(text, r) && s == text + rest
  {
    hide ToNat;
    var n := Span(s, IsDigit);
    var tail := s[n..];
    var m := if tail != "" && tail[0] == ',' then Span(tail[1..], IsDigit) else 0;
    if m == 0 {
      text := s[..n];
    } else {
      text := CountedWasThere(s[..n], tail, m);
      assert s == s[..n] + tail;
      assert Counted(text, s[..n], tail[1..][..m]);
    }
  }

  lemma CountedWasThere(a: string, tail: string, m: nat) returns (text: string)
    requires Digits(a) && tail != "" && tail[0] == ',' && 0 < m <= |tail| - 1
    requires forall i :: 0 <= i < m ==> IsDigit(tail[1..][i])
    ensures Counted(text, a, tail[1..][..m])
    ensures a + tail == text + tail[1..][m..]
  {
    var b, rest := tail[1..][..m], tail[1..][m..];
    text := a + ("," + b);
    assert tail == "," + (b + rest);
    assert a + ("," + (b + rest)) == text + rest;
  }

  lemma SkipsBlanks(w: string, s: string)
    requires Blanks(w) && s != "" && !IsSpace(s[0])
    ensures SkipSpaces(w + s) == Some(s)
  {
    SpanOfPrefix(w, s, IsSpace);
  }

  lemma BlanksWereThere(s: string) returns (w: string)
    requires SkipSpaces(s).Some?
    ensures Blanks(w) && s == w + SkipSpaces(s).value
  {
    w := s[..Span(s, IsSpace)];
  }

  /** White space, the sign, a range, and then the rest. */
  ghost predicate SideParts(s: string, sign: string, w: string, text: string, r: Range, rest: string) {
    Blanks(w) && IsRange(text, r) && s == w + (sign + (text + rest))
  }

  lemma ReadsSide(s: string, sign: string, w: string, text: string, r: Range, rest: string)
    requires |sign| == 1 && !IsSpace(sign[0]) && rest != "" && IsSpace(rest[0])
    requires SideParts(s, sign, w, text, r, rest)
    ensures ReadSide(s, sign) == Some((r, rest))
  {
    hide ReadRange, IsRange, SkipSpaces;
    var s1 := sign + (text + rest);
    SkipsBlanks(w, s1);
    assert s1[..1] == sign && s1[1..] == text + rest;
    ReadsRange(text, r, rest);
  }

  lemma SideWasThere(s: string, sign: string) returns (w: string, text: string)
    requires |sign| == 1 && ReadSide(s, sign).Some?
    ensures SideParts(s, sign, w, text, ReadSide(s, sign).value.0, ReadSide(s, sign).value.1)
  {
    hide ReadRange, IsRange, SkipSpaces;
    w := BlanksWereThere(s);
    var s1 := SkipSpaces(s).value;
    text := RangeWasThere(s1[1..]);
    assert s1 == sign + s1[1..];
  }

  /** The parts of a hunk header as the pattern groups them. */
  datatype HeaderParts = HeaderParts(w1: string, oldText: string, oldRange: Range, w2: string, new_: string,
                                     newRange: Range, w3: string, rest: string) {

    /** A count that is left out is one. */
    function Numbers(): Header {
      Header(newRange.start, match newRange.count case Some(count) => count case None => 1)
    }
  }

  /** `@@ -old +new @@` with any white space in the gaps, any digits, and anything after it. */
  ghost predicate HasParts(line: string, p: HeaderParts) {
    && Blanks(p.w1) && Blanks(p.w2) && Blanks(p.w3)
    && IsRange(p.oldText, p.oldRange) && IsRange(p.new_, p.newRange)
    && line == "@@" + (p.w1 + ("-" + (p.oldText + (p.w2 + ("+" + (p.new_ + (p.w3 + ("@@" + p.rest))))))))
  }

  /** A line is read as a header with these numbers if and only if it is one. */
  lemma HeaderExactlyWhen(line: string, h: Header)
    ensures ReadHeader(line) == Some(h) <==>
            exists p :: HasParts(line, p) && h == p.Numbers()
  {
    hide ReadSide, IsRange, SkipSpaces;
    if ReadHeader(line) == Some(h) {
      var p := HeaderWasThere(line);
    }
    forall p | HasParts(line, p)
      ensures ReadHeader(line) == Some(p.Numbers())
    {
      ReadsHeader(line, p);
    }
  }

  lemma ReadsHeader(line: string, p: HeaderParts)
    requires HasParts(line, p)
    ensures ReadHeader(line) == Some(p.Numbers())
  {
    hide ReadSide, IsRange, SkipSpaces;
    var close := "@@" + p.rest;
    var s3 := p.w3 + close;
    var s2 := p.w2 + ("+" + (p.new_ + s3));
    var s1 := p.w1 + ("-" + (p.oldText + s2));
    assert line[..2] == "@@" && line[2..] == s1;
    ReadsSide(s1, "-", p.w1, p.oldText, p.oldRange, s2);
    ReadsSide(s2, "+", p.w2, p.new_, p.newRange, s3);
    SkipsBlanks(p.w3, close);
    assert close[..2] == "@@";
  }

  lemma HeaderWasThere(line: string) returns (p: HeaderParts)
    requires ReadHeader(line).Some?
    ensures HasParts(line, p)
    ensures ReadHeader(line).value == p.Numbers()
  {
    hide ReadSide, IsRange, SkipSpaces;
    var s1 := line[2..];
    assert line == "@@" + s1;
    var w1, oldText := SideWasThere(s1, "-");
    var (oldRange, s2) := ReadSide(s1, "-").value;
    var w2, new_ := SideWasThere(s2, "+");
    var (newRange, s3) := ReadSide(s2, "+").value;
    var w3 := BlanksWereThere(s3);
    var s4 := SkipSpaces(s3).value;
    assert s4 == "@@" + s4[2..];
    p := HeaderParts(w1, oldText, oldRange, w2, new_, newRange, w3, s4[2..]);
  }

  // ----- Parsing what was written -----

  /** The hunk with the numbers of a body added to it. */
  function Grown(h: DiffHunk, body: seq<BodyLine>, n: int): DiffHunk {
    h.(modified := h.modified + Added(body, n), context := h.context + Unchanged(body, n))
  }

  lemma TrapIsFileHeader(l: BodyLine)
    ensures "+++ " <= LineText(l) <==> l.Add? && Trap(l)
    ensures "--- " <= LineText(l) <==> l.Del? && Trap(l)
  {
    var first := LineText(l)[0];
    assert ['+'] + "++ " == "+++ " && ['-'] + "-- " == "--- ";
    assert "+++ " <= LineText(l) ==> first == '+';
    assert "--- " <= LineText(l) ==> first == '-';
    match l
    case NoEol =>
    case Ctx(t) =>
    case Add(t) => MarkedPrefix('+', t, "++ ");
    case Del(t) => MarkedPrefix('-', t, "-- ");
  }

  lemma MarkedPrefix(c: char, text: string, prefix: string)
    ensures [c] + prefix <= [c] + text <==> prefix <= text
  {
    var line := [c] + text;
    assert line[1..] == text;
    if [c] + prefix <= line {
      assert ([c] + prefix)[1..] == prefix;
      assert line[..1 + |prefix|] == [c] + prefix;
      assert line[..1 + |prefix|][1..] == text[..|prefix|];
    }
    if prefix <= text {
      assert line[..1 + |prefix|] == [c] + text[..|prefix|];
    }
  }

  lemma LineStep(st: State, l: BodyLine)
    requires st.Valid() && st.inHunk && !Trap(l)
    ensures var r := Step(st, LineText(l));
            && r.inHunk && r.current == st.current
            && r.newLine == st.newLine + (if OnNewSide(l) then 1 else 0)
            && r.files == st.Record(Grown(st.Hunk(), [l], st.newLine)).files
  {
    TrapIsFileHeader(l);
    StepByFirstChar(st, LineText(l));
    var h := st.Hunk();
    assert Added([l], st.newLine) == if l.Add? then {st.newLine} else {};
    assert Unchanged([l], st.newLine) == if l.Ctx? then {st.newLine} else {};
    if l.Add? {
      assert Grown(h, [l], st.newLine) == h.(modified := h.modified + {st.newLine});
    } else if l.Ctx? {
      assert Grown(h, [l], st.newLine) == h.(context := h.context + {st.newLine});
    } else {
      assert Grown(h, [l], st.newLine) == h;
      RecordSame(st);
    }
  }

  lemma RecordSame(st: State)
    requires st.Valid() && st.inHunk
    ensures st.Record(st.Hunk()).files == st.files
  {
    var file := st.files[st.current.value];
    assert file.hunks[|file.hunks| - 1 := st.Hunk()] == file.hunks;
  }

  lemma TrapStep(st: State, l: BodyLine)
    requires st.Valid() && l.Del? && Trap(l)
    ensures Step(st, LineText(l)) == st.(inHunk := false)
  {
    TrapIsFileHeader(l);
    StepByFirstChar(st, LineText(l));
  }

  lemma CutOffLine(st: State, l: BodyLine)
    requires st.Valid() && !st.inHunk && !OnNewSide(l)
    ensures Step(st, LineText(l)) == st
  {
    StepByFirstChar(st, LineText(l));
  }

  /** Once a hunk is cut off, deleted lines change nothing. */
  lemma {:induction false} CutOffTail(st: State, body: seq<BodyLine>)
    requires st.Valid() && !st.inHunk && NewTexts(body) == []
    ensures Parse(st, BodyText(body)) == st
    decreases |body|
  {
    hide Step, LineText;
    if body != [] {
      CutOffLine(st, body[0]);
      CutOffTail(st, body[1..]);
    }
  }

  lemma GrownTwice(h: DiffHunk, body: seq<BodyLine>, n: int)
    requires body != []
    ensures Grown(Grown(h, [body[0]], n), body[1..], if OnNewSide(body[0]) then n + 1 else n) == Grown(h, body, n)
  {
    assert Added([body[0]], n) == if body[0].Add? then {n} else {};
    assert Unchanged([body[0]], n) == if body[0].Ctx? then {n} else {};
    var m := if OnNewSide(body[0]) then n + 1 else n;
    assert Added(body, n) == Added([body[0]], n) + Added(body[1..], m);
    assert Unchanged(body, n) == Unchanged([body[0]], n) + Unchanged(body[1..], m);
    assert Grown(Grown(h, [body[0]], n), body[1..], m).modified == Grown(h, body, n).modified;
    assert Grown(Grown(h, [body[0]], n), body[1..], m).context == Grown(h, body, n).context;
  }

  lemma RecordTwice(st: State, a: DiffHunk, b: DiffHunk, r: State)
    requires st.Valid() && st.inHunk && r.Valid() && r.inHunk && r.current == st.current
    requires r.files == st.Record(a).files
    ensures r.Hunk() == a && r.Record(b).files == st.Record(b).files
  {
    assert st.Record(a).Hunk() == a;
    var k := st.current.value;
    var last := |st.files[k].hunks| - 1;
    assert st.files[k].hunks[last := a][last := b] == st.files[k].hunks[last := b];
  }

  lemma {:induction false} NothingNew(body: seq<BodyLine>, n: int)
    requires NewTexts(body) == []
    ensures Added(body, n) == {} && Unchanged(body, n) == {}
  {
    if body != [] {
      NothingNew(body[1..], n);
    }
  }

  lemma GrownByNothing(h: DiffHunk, body: seq<BodyLine>, n: int)
    requires NewTexts(body) == []
    ensures Grown(h, body, n) == h
  {
    NothingNew(body, n);
  }

  lemma {:induction false} BodyParse(st: State, body: seq<BodyLine>)
    requires st.Valid() && st.inHunk && Safe(body)
    ensures var r := Parse(st, BodyText(body));
            && r.current == st.current
            && r.files == st.Record(Grown(st.Hunk(), body, st.newLine)).files
    decreases |body|
  {
    hide Step, State.Record, Trap, Grown;
    if body == [] {
      RecordSame(st);
      GrownByNothing(st.Hunk(), body, st.newLine);
    } else if Trap(body[0]) {
      TrapStep(st, body[0]);
      CutOffTail(st.(inHunk := false), body[1..]);
      GrownByNothing(st.Hunk(), body, st.newLine);
      RecordSame(st);
    } else {
      var r := Step(st, LineText(body[0]));
      LineStep(st, body[0]);
      BodyParse(r, body[1..]);
      GrownTwice(st.Hunk(), body, st.newLine);
      RecordTwice(st, Grown(st.Hunk(), [body[0]], st.newLine), Grown(st.Hunk(), body, st.newLine), r);
    }
  }

  lemma HeaderStep(st: State, h: Hunk)
    requires st.Valid() && st.current.Some? && st.current.value != ""
    ensures Step(st, HeaderText(h)) == st.EnterHunk(Header(h.newStart, h.newCount))
  {
    hide ReadHeader;
    HeaderRoundTrip(h);
    var line := HeaderText(h);
    assert line[..2] == "@@" && line[0] == '@';
    assert !("+++ " <= line) && !("--- " <= line);
  }

  lemma HunkParse(st: State, h: Hunk, key: string)
    requires st.Valid() && st.current == Some(key) && key != "" && Safe(h.body)
    ensures var r := Parse(st, HunkText(h));
            r.current == Some(key) && r.files == WithHunks(st.files, key, [Expected(h)])
  {
    hide Step;
    HeaderStep(st, h);
    var entered := st.EnterHunk(Header(h.newStart, h.newCount));
    assert HunkText(h)[1..] == BodyText(h.body);
    BodyParse(entered, h.body);
    var hunks := st.files[key].hunks;
    var blank := DiffHunk(h.newStart, h.newCount, {}, {});
    assert Grown(blank, h.body, h.newStart) == Expected(h);
    assert (hunks + [blank])[|hunks| := Expected(h)] == hunks + [Expected(h)];
  }

  /** The file table with more hunks at the end of one file. */
  function WithHunks(files: FileDiffs, key: string, more: seq<DiffHunk>): FileDiffs
    requires key in files
  {
    files[key := files[key].(hunks := files[key].hunks + more)]
  }

  lemma WithHunksTwice(files: FileDiffs, key: string, a: seq<DiffHunk>, b: seq<DiffHunk>)
    requires key in files
    ensures WithHunks(WithHunks(files, key, a), key, b) == WithHunks(files, key, a + b)
    ensures WithHunks(files, key, []) == files
  {
    var hunks := files[key].hunks;
    assert hunks + a + b == hunks + (a + b) && hunks + [] == hunks;
  }

  lemma {:induction false} HunksParse(st: State, hunks: seq<Hunk>, key: string)
    requires st.Valid() && st.current == Some(key) && key != ""
    requires forall i :: 0 <= i < |hunks| ==> Safe(hunks[i].body)
    ensures var r := Parse(st, HunksText(hunks));
            r.current == Some(key) && r.files == WithHunks(st.files, key, ExpectedHunks(hunks))
    decreases |hunks|
  {
    hide Step, Expected, HunkText, Safe, WithHunks;
    if hunks == [] {
      WithHunksTwice(st.files, key, [], []);
      assert ExpectedHunks(hunks) == [];
    } else {
      var first, rest := [Expected(hunks[0])], ExpectedHunks(hunks[1..]);
      HunkParse(st, hunks[0], key);
      ParseAppend(st, HunkText(hunks[0]), HunksText(hunks[1..]));
      HunksParse(Parse(st, HunkText(hunks[0])), hunks[1..], key);
      assert ExpectedHunks(hunks) == first + rest;
      WithHunksTwice(st.files, key, first, rest);
    }
  }

  function AddFile(files: FileDiffs, f: FilePatch): FileDiffs {
    var key := Normalize(f.newName);
    WithHunks(if key in files then files else files[key := FileDiff(key, [])], key, ExpectedHunks(f.hunks))
  }

  function AddFiles(files: FileDiffs, d: seq<FilePatch>): FileDiffs
    decreases |d|
  {
    if d == [] then files else AddFiles(AddFile(files, d[0]), d[1..])
  }

  lemma FileParse(st: State, f: FilePatch)
    requires st.Valid() && SafeFile(f)
    ensures Parse(st, FileText(f)).files == AddFile(st.files, f)
  {
    hide Normalize, HunksText, WithHunks, Safe;
    var key := Normalize(f.newName);
    NameLines(st, f);
    var entered := st.(inHunk := false).EnterFile(key);
    HunksParse(entered, f.hunks, key);
    ParseAppend(st, ["--- " + f.oldName, "+++ " + f.newName], HunksText(f.hunks));
  }

  lemma NameLines(st: State, f: FilePatch)
    requires st.Valid()
    ensures Parse(st, ["--- " + f.oldName, "+++ " + f.newName])
         == st.(inHunk := false).EnterFile(Normalize(f.newName))
  {
    hide Normalize;
    var oldLine, newLine := "--- " + f.oldName, "+++ " + f.newName;
    StepByFirstChar(st, oldLine);
    assert oldLine[..4] == "--- ";
    assert newLine[..4] == "+++ " && newLine[4..] == f.newName;
    var lines: Text := [oldLine, newLine];
    assert lines[1..] == [newLine] && lines[2..] == [];
    var cut := Step(st, oldLine);
    assert cut == st.(inHunk := false);
    assert Step(cut, newLine) == cut.EnterFile(Normalize(f.newName));
    assert Parse(st, lines) == Parse(cut, lines[1..]) == Parse(Step(cut, newLine), lines[1..][1..]);
  }

  /** Parsing what was written adds each file's hunks, in order, with the expected numbers. */
  lemma {:induction false} DiffParse(st: State, d: seq<FilePatch>)
    requires st.Valid() && forall i :: 0 <= i < |d| ==> SafeFile(d[i])
    ensures Parse(st, DiffText(d)).files == AddFiles(st.files, d)
    decreases |d|
  {
    hide Step, AddFile, SafeFile;
    if d != [] {
      FileParse(st, d[0]);
      ParseAppend(st, FileText(d[0]), DiffText(d[1..]));
      DiffParse(Parse(st, FileText(d[0])), d[1..]);
    }
  }

  /** The hunks of all files of the diff stored under one key, in order. */
  function HunksFor(d: seq<FilePatch>, key: string): seq<Hunk> {
    if d == [] then [] else (if Normalize(d[0].newName) == key then d[0].hunks else []) + HunksFor(d[1..], key)
  }

  function HunksIn(files: FileDiffs, key: string): seq<DiffHunk> {
    if key in files then files[key].hunks else []
  }

  lemma AddFileAt(files: FileDiffs, f: FilePatch, key: string)
    ensures HunksIn(AddFile(files, f), key)
         == HunksIn(files, key) + if Normalize(f.newName) == key then ExpectedHunks(f.hunks) else []
    ensures key in AddFile(files, f) <==> key in files || Normalize(f.newName) == key
  {
    hide Normalize, ExpectedHunks;
  }

  lemma ExpectedAppend(a: seq<Hunk>, b: seq<Hunk>)
    ensures ExpectedHunks(a + b) == ExpectedHunks(a) + ExpectedHunks(b)
  {
    hide Expected;
  }

  /** A key collects the hunks of every file that has it. */
  lemma {:induction false} AddedFilesAt(files: FileDiffs, d: seq<FilePatch>, key: string)
    ensures HunksIn(AddFiles(files, d), key) == HunksIn(files, key) + ExpectedHunks(HunksFor(d, key))
    ensures key in files || (exists i :: 0 <= i < |d| && Normalize(d[i].newName) == key) ==> key in AddFiles(files, d)
    decreases |d|
  {
    hide Normalize, ExpectedHunks, AddFile, HunksIn;
    if d == [] {
      assert ExpectedHunks([]) == [];
    } else {
      var mine := if Normalize(d[0].newName) == key then d[0].hunks else [];
      AddFileAt(files, d[0], key);
      AddedFilesAt(AddFile(files, d[0]), d[1..], key);
      ExpectedAppend(mine, HunksFor(d[1..], key));
      assert mine == [] ==> ExpectedHunks(mine) == [];
      assert forall i :: 0 < i < |d| ==> d[i] == d[1..][i - 1];
    }
  }

  /** Where the hunks of the i-th file stand among those of its key. */
  lemma {:induction false} OwnHunks(d: seq<FilePatch>, i: nat, j: nat)
    requires i < |d| && j < |d[i].hunks|
    ensures var key := Normalize(d[i].newName);
            var at := |HunksFor(d[..i], key)| + j;
            at < |HunksFor(d, key)| && HunksFor(d, key)[at] == d[i].hunks[j]
    decreases |d|
  {
    hide Normalize;
    var key := Normalize(d[i].newName);
    if i == 0 {
      assert d[..0] == [];
    } else {
      assert d[1..][i - 1] == d[i];
      OwnHunks(d[1..], i - 1, j);
      assert d[..i][0] == d[0] && d[..i][1..] == d[1..][..i - 1];
    }
  }

  // ----- Applying a patch -----

  /** Lines of the old file a hunk comes after. */
  function Skipped(h: Hunk): int {
    if h.oldCount == 0 then h.oldStart else h.oldStart - 1
  }

  /** The header tells the truth about its body and about where its new lines land. */
  predicate Truthful(h: Hunk, before: nat) {
    && h.oldCount == |OldTexts(h.body)|
    && h.newCount == |NewTexts(h.body)|
    && h.newStart == if h.newCount == 0 then before else before + 1
  }

  /** The new file, when `pos` lines of `orig` are already accounted for by `out`; `None` if the hunks do
      not apply to `orig`. */
  function Apply(orig: seq<string>, pos: nat, out: seq<string>, hunks: seq<Hunk>): Option<seq<string>>
    requires pos <= |orig|
    decreases |hunks|
  {
    if hunks == [] then Some(out + orig[pos..])
    else
      var h := hunks[0];
      var at := Skipped(h);
      var end := at + |OldTexts(h.body)|;
      if !(pos <= at && end <= |orig| && orig[at..end] == OldTexts(h.body)) then None
      else
        var before := out + orig[pos..at];
        if !Truthful(h, |before|) then None
        else Apply(orig, end, before + NewTexts(h.body), hunks[1..])
  }

  lemma {:induction false} ApplyKeepsOutput(orig: seq<string>, pos: nat, out: seq<string>, hunks: seq<Hunk>)
    requires pos <= |orig| && Apply(orig, pos, out, hunks).Some?
    ensures out <= Apply(orig, pos, out, hunks).value
    decreases |hunks|
  {
    if hunks != [] {
      var h := hunks[0];
      ApplyKeepsOutput(orig, Skipped(h) + |OldTexts(h.body)|, out + orig[pos..Skipped(h)] + NewTexts(h.body), hunks[1..]);
    }
  }

  /** The new-side lines of the hunk are the lines of `new` from its start on. */
  ghost predicate Lands(h: Hunk, new_: seq<string>) {
    var texts := NewTexts(h.body);
    texts != [] ==> 1 <= h.newStart && h.newStart - 1 + |texts| <= |new_|
                    && new_[h.newStart - 1..h.newStart - 1 + |texts|] == texts
  }

  lemma {:induction false} EveryHunkLands(orig: seq<string>, pos: nat, out: seq<string>, hunks: seq<Hunk>, i: nat)
    requires pos <= |orig| && Apply(orig, pos, out, hunks).Some? && i < |hunks|
    ensures Lands(hunks[i], Apply(orig, pos, out, hunks).value)
    decreases |hunks|
  {
    hide NewTexts, OldTexts, Lands;
    var h := hunks[0];
    var at, texts := Skipped(h), NewTexts(h.body);
    var before := out + orig[pos..at];
    var end := at + |OldTexts(h.body)|;
    if i == 0 {
      ApplyKeepsOutput(orig, end, before + texts, hunks[1..]);
      LandsInOutput(h, before, Apply(orig, pos, out, hunks).value);
    } else {
      EveryHunkLands(orig, end, before + texts, hunks[1..], i - 1);
      assert hunks[1..][i - 1] == hunks[i];
    }
  }

  lemma LandsInOutput(h: Hunk, before: seq<string>, new_: seq<string>)
    requires Truthful(h, |before|) && before + NewTexts(h.body) <= new_
    ensures Lands(h, new_)
  {
    hide NewTexts, OldTexts;
    var all := before + NewTexts(h.body);
    assert new_[..|all|] == all;
    assert new_[|before|..|all|] == all[|before|..] == NewTexts(h.body);
  }

  /** Number of the k-th body line in the new file, if it is there at all. */
  function NumberOf(h: Hunk, k: nat): int
    requires k < |h.body|
  {
    h.newStart + |NewTexts(h.body[..k])|
  }

  lemma {:induction false} NumbersOfBody(body: seq<BodyLine>, n: int, k: nat)
    requires k < |body| && OnNewSide(body[k])
    ensures var m := |NewTexts(body[..k])|;
            && m < |NewTexts(body)| && NewTexts(body)[m] == body[k].text
            && (body[k].Add? ==> n + m in Added(body, n))
            && (body[k].Ctx? ==> n + m in Unchanged(body, n))
    decreases |body|
  {
    if k == 0 {
      assert body[..0] == [];
    } else {
      var first := if OnNewSide(body[0]) then 1 else 0;
      NumbersOfBody(body[1..], n + first, k - 1);
      assert body[..k][0] == body[0] && body[..k][1..] == body[1..][..k - 1];
    }
  }

  lemma {:induction false} AddedComeFromBody(body: seq<BodyLine>, n: int, x: int)
    requires x in Added(body, n)
    ensures exists k :: 0 <= k < |body| && body[k].Add? && x == n + |NewTexts(body[..k])|
    decreases |body|
  {
    if body[0].Add? && x == n {
      assert body[..0] == [] && x == n + |NewTexts(body[..0])|;
    } else {
      var first := if OnNewSide(body[0]) then 1 else 0;
      AddedComeFromBody(body[1..], n + first, x);
      var k :| 0 <= k < |body[1..]| && body[1..][k].Add? && x == n + first + |NewTexts(body[1..][..k])|;
      assert body[..k + 1][0] == body[0] && body[..k + 1][1..] == body[1..][..k];
      assert x == n + |NewTexts(body[..k + 1])|;
    }
  }

  /** The number the parser gives a line on the new side is its line number in the patched file. */
  ghost predicate NumbersPatchedFile(p: DiffHunk, h: Hunk, new_: seq<string>) {
    && (forall k :: 0 <= k < |h.body| && OnNewSide(h.body[k]) ==>
          && NumberOf(h, k) in (if h.body[k].Add? then p.modified else p.context)
          && 1 <= NumberOf(h, k) <= |new_|
          && new_[NumberOf(h, k) - 1] == h.body[k].text)
    && (forall x :: x in p.modified ==> exists k :: 0 <= k < |h.body| && h.body[k].Add? && x == NumberOf(h, k))
  }

  lemma ExpectedNumbersPatchedFile(h: Hunk, new_: seq<string>)
    requires Lands(h, new_)
    ensures NumbersPatchedFile(Expected(h), h, new_)
  {
    forall k | 0 <= k < |h.body| && OnNewSide(h.body[k])
      ensures NumberOf(h, k) in (if h.body[k].Add? then Expected(h).modified else Expected(h).context)
      ensures 1 <= NumberOf(h, k) <= |new_| && new_[NumberOf(h, k) - 1] == h.body[k].text
    {
      NumbersOfBody(h.body, h.newStart, k);
      var m := |NewTexts(h.body[..k])|;
      assert new_[h.newStart - 1..h.newStart - 1 + |NewTexts(h.body)|][m] == new_[NumberOf(h, k) - 1];
    }
    forall x | x in Expected(h).modified
      ensures exists k :: 0 <= k < |h.body| && h.body[k].Add? && x == NumberOf(h, k)
    {
      AddedComeFromBody(h.body, h.newStart, x);
      var k :| 0 <= k < |h.body| && h.body[k].Add? && x == h.newStart + |NewTexts(h.body[..k])|;
      assert x == NumberOf(h, k);
    }
  }

  /** Parser correctness: in a diff of several files, wherever a file's hunks apply, every number in the
      parsed hunks is the line number of that very text in the patched file.  Its hunks come after those of
      the earlier files with the same key, such as other deletions (`/dev/null`). */
  lemma ParserNumbersThePatchedFile(d: seq<FilePatch>, i: nat, j: nat, orig: seq<string>)
    requires AllSafe(d)
    requires i < |d| && j < |d[i].hunks|
    requires Apply(orig, 0, [], d[i].hunks).Some?
    ensures var key, files := Normalize(d[i].newName), Parsed(DiffText(d));
            var at := |HunksFor(d[..i], key)| + j;
            && key in files && |files[key].hunks| == |HunksFor(d, key)| && at < |HunksFor(d, key)|
            && NumbersPatchedFile(files[key].hunks[at], d[i].hunks[j], Apply(orig, 0, [], d[i].hunks).value)
  {
    hide Step, Apply, SafeFile, Normalize, ExpectedHunks, HunksFor, Expected, Parse, DiffText, NumbersPatchedFile;
    var key := Normalize(d[i].newName);
    SafeIsReadBack(d, i);
    OwnHunks(d, i, j);
    ExpectedAt(HunksFor(d, key), |HunksFor(d[..i], key)| + j);
    EveryHunkLands(orig, 0, [], d[i].hunks, j);
    ExpectedNumbersPatchedFile(d[i].hunks[j], Apply(orig, 0, [], d[i].hunks).value);
  }

  lemma SafeIsReadBack(d: seq<FilePatch>, i: nat)
    requires AllSafe(d) && i < |d|
    ensures ReadBackKey(map[], Parsed(DiffText(d)), d, Normalize(d[i].newName))
  {
    hide Step, SafeFile, Normalize, ExpectedHunks, HunksFor;
    DiffParse(INITIAL, d);
    AddedFilesAt(map[], d, Normalize(d[i].newName));
  }

  lemma ExpectedAt(hunks: seq<Hunk>, at: nat)
    requires at < |hunks|
    ensures ExpectedHunks(hunks)[at] == Expected(hunks[at])
  {
  }

  // ----- Exactly which diffs are read back -----

  /** Every file of the diff is known, and each key comes back with exactly the expected hunks of its files
      after those it had before. */
  ghost predicate ReadBack(before: FileDiffs, files: FileDiffs, d: seq<FilePatch>) {
    forall i :: 0 <= i < |d| ==> ReadBackKey(before, files, d, Normalize(d[i].newName))
  }

  ghost predicate ReadBackKey(before: FileDiffs, files: FileDiffs, d: seq<FilePatch>, key: string) {
    key in files && files[key].hunks == HunksIn(before, key) + ExpectedHunks(HunksFor(d, key))
  }

  /** The hunk at `at` of `key` is `h` and is no longer being filled. */
  ghost predicate Frozen(st: State, key: string, at: nat, h: DiffHunk) {
    && key in st.files && at < |st.files[key].hunks| && st.files[key].hunks[at] == h
    && (st.inHunk && st.current == Some(key) ==> at < |st.files[key].hunks| - 1)
  }

  lemma FrozenStep(st: State, line: string, key: string, at: nat, h: DiffHunk)
    requires st.Valid() && Frozen(st, key, at, h)
    ensures Frozen(Step(st, line), key, at, h)
  {
    hide Normalize, ReadHeader;
  }

  lemma {:induction false} FrozenParse(st: State, lines: Text, key: string, at: nat, h: DiffHunk)
    requires st.Valid() && Frozen(st, key, at, h)
    ensures Frozen(Parse(st, lines), key, at, h)
    decreases |lines|
  {
    hide Step, Frozen;
    if lines != [] {
      FrozenStep(st, lines[0], key, at, h);
      FrozenParse(Step(st, lines[0]), lines[1..], key, at, h);
    }
  }

  lemma {:induction false} NextNumberIsTaken(body: seq<BodyLine>, n: int)
    requires NewTexts(body) != []
    ensures n in Added(body, n) + Unchanged(body, n)
  {
    if !OnNewSide(body[0]) {
      NextNumberIsTaken(body[1..], n);
    }
  }

  lemma {:induction false} NothingNewIsSafe(body: seq<BodyLine>)
    requires NewTexts(body) == []
    ensures Safe(body)
  {
    if body != [] {
      NothingNewIsSafe(body[1..]);
    }
  }

  lemma TrapFreezes(st: State, l: BodyLine)
    requires st.Valid() && st.inHunk && Trap(l)
    ensures Frozen(Step(st, LineText(l)), st.current.value, |st.files[st.current.value].hunks| - 1, st.Hunk())
  {
    hide Normalize;
    TrapIsFileHeader(l);
    StepByFirstChar(st, LineText(l));
  }

  /** An unsafe body leaves its hunk without a line it should have. */
  lemma {:induction false} BodyBroken(st: State, body: seq<BodyLine>) returns (left: DiffHunk)
    requires st.Valid() && st.inHunk && AllIntervals(st) && !Safe(body)
    ensures left != Grown(st.Hunk(), body, st.newLine)
    ensures Frozen(Parse(st, BodyText(body)), st.current.value, |st.files[st.current.value].hunks| - 1, left)
    decreases |body|
  {
    hide Step, Frozen, State.Record, Trap;
    var r := Step(st, LineText(body[0]));
    var at := |st.files[st.current.value].hunks| - 1;
    if Trap(body[0]) {
      left := st.Hunk();
      TrapFreezes(st, body[0]);
      FrozenParse(r, BodyText(body[1..]), st.current.value, at, left);
      UnsafeTrapLosesALine(body, st.newLine);
      assert st.newLine !in left.AllLines();
      assert st.newLine in Grown(left, body, st.newLine).AllLines();
    } else {
      LineStep(st, body[0]);
      StepKeepsIntervals(st, LineText(body[0]));
      GrownTwice(st.Hunk(), body, st.newLine);
      RecordedHunk(st, Grown(st.Hunk(), [body[0]], st.newLine), r);
      left := BodyBroken(r, body[1..]);
    }
  }

  lemma RecordedHunk(st: State, h: DiffHunk, r: State)
    requires st.Valid() && st.inHunk && r.Valid() && r.inHunk && r.current == st.current
    requires r.files == st.Record(h).files
    ensures r.Hunk() == h && |r.files[r.current.value].hunks| == |st.files[st.current.value].hunks|
  {
  }

  lemma UnsafeTrapLosesALine(body: seq<BodyLine>, n: int)
    requires body != [] && Trap(body[0]) && !Safe(body)
    ensures n in Added(body, n) + Unchanged(body, n)
  {
    if body[0].Del? {
      if NewTexts(body[1..]) == [] {
        NothingNewIsSafe(body[1..]);
      } else {
        NextNumberIsTaken(body[1..], n);
      }
    }
  }

  lemma {:induction false} HunksBroken(st: State, hunks: seq<Hunk>, key: string) returns (j: nat, left: DiffHunk)
    requires st.Valid() && st.current == Some(key) && key != "" && AllIntervals(st)
    requires exists i :: 0 <= i < |hunks| && !Safe(hunks[i].body)
    ensures j < |hunks| && left != Expected(hunks[j])
    ensures Frozen(Parse(st, HunksText(hunks)), key, |st.files[key].hunks| + j, left)
    decreases |hunks|
  {
    hide Step, Frozen, Safe, AllIntervals, Expected, HunkText;
    var h, tail := hunks[0], hunks[1..];
    ParseAppend(st, HunkText(h), HunksText(tail));
    if Safe(h.body) {
      HunkParse(st, h, key);
      ParseKeepsIntervals(st, HunkText(h));
      assert exists i :: 0 <= i < |tail| && !Safe(tail[i].body) by {
        var i :| 0 <= i < |hunks| && !Safe(hunks[i].body);
        assert tail[i - 1] == hunks[i];
      }
      j, left := HunksBroken(Parse(st, HunkText(h)), tail, key);
      j := j + 1;
    } else {
      left := HunkBroken(st, h, key);
      j := 0;
      FrozenParse(Parse(st, HunkText(h)), HunksText(tail), key, |st.files[key].hunks|, left);
    }
  }

  lemma HunkBroken(st: State, h: Hunk, key: string) returns (left: DiffHunk)
    requires st.Valid() && st.current == Some(key) && key != "" && AllIntervals(st) && !Safe(h.body)
    ensures left != Expected(h)
    ensures Frozen(Parse(st, HunkText(h)), key, |st.files[key].hunks|, left)
  {
    hide Step, Frozen, Safe, AllIntervals, HeaderText;
    HeaderStep(st, h);
    StepKeepsIntervals(st, HeaderText(h));
    var entered := st.EnterHunk(Header(h.newStart, h.newCount));
    assert HunkText(h)[1..] == BodyText(h.body);
    left := BodyBroken(entered, h.body);
    var blank := DiffHunk(h.newStart, h.newCount, {}, {});
    assert Grown(blank, h.body, h.newStart) == Expected(h);
  }

  lemma FileBroken(st: State, f: FilePatch) returns (j: nat, left: DiffHunk)
    requires st.Valid() && AllIntervals(st) && Normalize(f.newName) != "" && !SafeFile(f)
    ensures j < |f.hunks| && left != Expected(f.hunks[j])
    ensures Frozen(Parse(st, FileText(f)), Normalize(f.newName), |HunksIn(st.files, Normalize(f.newName))| + j, left)
  {
    hide Step, Frozen, Safe, Normalize, Expected, HunksText, AllIntervals;
    var key, names := Normalize(f.newName), ["--- " + f.oldName, "+++ " + f.newName];
    NameLines(st, f);
    ParseKeepsIntervals(st, names);
    ParseAppend(st, names, HunksText(f.hunks));
    j, left := HunksBroken(Parse(st, names), f.hunks, key);
  }

  lemma ReadBackKeyTail(before: FileDiffs, files: FileDiffs, d: seq<FilePatch>, key: string)
    requires d != [] && ReadBackKey(before, files, d, key)
    ensures ReadBackKey(AddFile(before, d[0]), files, d[1..], key)
  {
    hide Normalize, ExpectedHunks, AddFile, HunksIn, HunksFor;
    var mine, others := if Normalize(d[0].newName) == key then d[0].hunks else [], HunksFor(d[1..], key);
    AddFileAt(before, d[0], key);
    ExpectedAppend(mine, others);
    assert HunksFor(d, key) == mine + others by { HunksForHead(d, key); }
    assert ExpectedHunks([]) == [] by { ExpectedNothing(); }
    var a, b, c := HunksIn(before, key), ExpectedHunks(mine), ExpectedHunks(others);
    assert a + (b + c) == (a + b) + c;
  }

  lemma HunksForHead(d: seq<FilePatch>, key: string)
    requires d != []
    ensures HunksFor(d, key) == (if Normalize(d[0].newName) == key then d[0].hunks else []) + HunksFor(d[1..], key)
  {
    hide Normalize;
  }

  lemma ExpectedNothing()
    ensures ExpectedHunks([]) == []
  {
  }

  lemma ReadBackTail(before: FileDiffs, files: FileDiffs, d: seq<FilePatch>)
    requires d != [] && ReadBack(before, files, d)
    ensures ReadBack(AddFile(before, d[0]), files, d[1..])
  {
    hide Normalize, AddFile, ReadBackKey;
    forall i | 0 <= i < |d[1..]| ensures ReadBackKey(AddFile(before, d[0]), files, d[1..], Normalize(d[1..][i].newName)) {
      assert d[1..][i] == d[i + 1];
      ReadBackKeyTail(before, files, d, Normalize(d[i + 1].newName));
    }
  }

  lemma BrokenIsNotReadBack(st: State, files: FileDiffs, d: seq<FilePatch>, j: nat, left: DiffHunk)
    requires d != [] && j < |d[0].hunks| && left != Expected(d[0].hunks[j])
    requires var key := Normalize(d[0].newName);
             var at := |HunksIn(st.files, key)| + j;
             key in files ==> at < |files[key].hunks| && files[key].hunks[at] == left
    ensures !ReadBack(st.files, files, d)
  {
    hide Normalize, Expected, HunksIn;
    var key := Normalize(d[0].newName);
    assert HunksFor(d, key)[j] == d[0].hunks[j];
    assert ReadBack(st.files, files, d) ==> ReadBackKey(st.files, files, d, key);
  }

  lemma {:induction false} UnsafeIsNotReadBack(st: State, d: seq<FilePatch>)
    requires st.Valid() && AllIntervals(st) && !AllSafe(d)
    requires forall i :: 0 <= i < |d| ==> Normalize(d[i].newName) != ""
    ensures !ReadBack(st.files, Parse(st, DiffText(d)).files, d)
    decreases |d|
  {
    hide Step, SafeFile, Normalize, Expected, FileText, AllIntervals, ReadBack, HunksIn;
    var f, rest := d[0], DiffText(d[1..]);
    var after := Parse(st, FileText(f));
    ParseAppend(st, FileText(f), rest);
    if SafeFile(f) {
      FileParse(st, f);
      ParseKeepsIntervals(st, FileText(f));
      assert forall i :: 0 <= i < |d[1..]| ==> d[1..][i] == d[i + 1];
      UnsafeIsNotReadBack(after, d[1..]);
      if ReadBack(st.files, Parse(after, rest).files, d) {
        ReadBackTail(st.files, Parse(after, rest).files, d);
      }
    } else {
      var j, left := FileBroken(st, f);
      FrozenParse(after, rest, Normalize(f.newName), |HunksIn(st.files, Normalize(f.newName))| + j, left);
      BrokenIsNotReadBack(st, Parse(after, rest).files, d, j, left);
    }
  }

  /** A diff is read back with the right line numbers for every file if and only if no hunk holds a line
      that passes for a file header and cuts off part of the new file. */
  lemma ReadBackExactlyWhenSafe(d: seq<FilePatch>)
    requires forall i :: 0 <= i < |d| ==> Normalize(d[i].newName) != ""
    ensures ReadBack(map[], Parsed(DiffText(d)), d) <==> AllSafe(d)
  {
    hide SafeFile, Normalize, ReadBackKey, Parse, DiffText;
    if AllSafe(d) {
      forall i | 0 <= i < |d| ensures ReadBackKey(map[], Parsed(DiffText(d)), d, Normalize(d[i].newName)) {
        SafeIsReadBack(d, i);
      }
    } else {
      UnsafeIsNotReadBack(INITIAL, d);
    }
  }

  lemma {:induction false} DropsSlashes(slashes: string, path: string)
    requires path == "" || path[0] != '/'
    requires forall i :: 0 <= i < |slashes| ==> slashes[i] == '/'
    ensures DropSlashes(slashes + path) == path
  {
    SpanOfPrefix(slashes, path, c => c == '/');
  }

  lemma {:induction false} BeforeStops(x: string, t: string, c: char)
    requires forall i :: 0 <= i < |x| ==> x[i] != c
    ensures Before(x + t, c) == x + Before(t, c)
  {
    if x == "" {
      assert x + t == t;
    } else {
      assert (x + t)[1..] == x[1..] + t;
      BeforeStops(x[1..], t, c);
      var n := Span(x[1..] + t, d => d != c);
      assert (x + t)[..n + 1] == [x[0]] + (x[1..] + t)[..n];
    }
  }

  lemma StripKeepsHead(x: string, tail: string)
    requires x != "" && !IsSpace(x[0]) && !IsSpace(x[|x| - 1])
    ensures x <= Strip(x + tail) <= x + tail
  {
    RStripExtends(x + tail);
    var r := RStrip(x + tail);
    assert (x + tail)[|x| - 1] == x[|x| - 1];
    assert r[..|x|] == (x + tail)[..|x|] == x;
  }

  predicate PlainPath(path: string) {
    path != "" && path[0] != '/' && forall i :: 0 <= i < |path| ==> !IsSpace(path[i])
  }

  /** What a file header may add to the path: one letter and a slash before it, more slashes, and after it a
      tab or a space with anything behind it, such as a date. */
  predicate NameOf(name: string, prefix: string, slashes: string, path: string, tail: string) {
    && PlainPath(path)
    && prefix in ["", "a/", "b/"]
    && (forall i :: 0 <= i < |slashes| ==> slashes[i] == '/')
    && (prefix == "" && slashes == "" ==> !("a/" <= path) && !("b/" <= path))
    && (tail != "" ==> tail[0] == '\t' || tail[0] == ' ')
    && name == prefix + slashes + path + tail
  }

  lemma CutsTail(x: string, tail: string)
    requires x != "" && forall i :: 0 <= i < |x| ==> !IsSpace(x[i])
    requires tail != "" ==> tail[0] == '\t' || tail[0] == ' '
    ensures Before(Before(Strip(x + tail), '\t'), ' ') == x
  {
    hide Strip, Before;
    StripKeepsHead(x, tail);
    var t := Strip(x + tail)[|x|..];
    assert Strip(x + tail) == x + t;
    assert t != "" ==> t[0] == tail[0];
    BeforeStops(x, t, '\t');
    BeforeStops(x, Before(t, '\t'), ' ');
    NothingBefore(t);
  }

  lemma NothingBefore(t: string)
    requires t != "" ==> t[0] == '\t' || t[0] == ' '
    ensures Before(Before(t, '\t'), ' ') == ""
  {
  }

  /** Such a header stands for the path itself. */
  lemma KeyOfName(name: string, prefix: string, slashes: string, path: string, tail: string)
    requires NameOf(name, prefix, slashes, path, tail)
    ensures Normalize(name) == path
  {
    hide Strip, Before, DropSlashes;
    var raw := prefix + slashes + path;
    CutsTail(raw, tail);
    DropsSlashes(slashes, path);
    if prefix != "" {
      assert raw[..2] == prefix && raw[2..] == slashes + path;
    } else {
      assert raw == slashes + path;
      NotPrefixed(slashes, path);
    }
  }

  lemma NotPrefixed(slashes: string, path: string)
    requires forall i :: 0 <= i < |slashes| ==> slashes[i] == '/'
    requires slashes == "" ==> !("a/" <= path) && !("b/" <= path)
    ensures !("a/" <= slashes + path) && !("b/" <= slashes + path)
  {
    if slashes == "" {
      assert slashes + path == path;
    } else {
      assert (slashes + path)[0] == '/';
    }
  }

  /** A path without white space that is written after `b/` is its own key. */
  lemma PlainPathIsItsOwnKey(path: string)
    requires PlainPath(path)
    ensures Normalize("b/" + path) == path
  {
    hide Normalize;
    assert "b/" + path == "b/" + "" + path + "";
    KeyOfName("b/" + path, "b/", "", path, "");
  }
}
