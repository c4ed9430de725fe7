/**
 Text as the diff code sees it.

 A text is the sequence of pieces between its newline characters, so joining two texts with a newline
 is concatenation, and a trailing newline shows as a last empty piece.
 */
module Text {
  import opened Options

  type Text = seq<string>

  /** ASCII white space. */
  predicate IsSpace(c: char) {
    c == ' ' || '\t' <= c <= '\r' || '\U{1C}' <= c <= '\U{1F}'
  }

  predicate IsDigit(c: char) {
    '0' <= c <= '9'
  }

  /** Length of the longest prefix whose characters all satisfy `p`. */
  function Span(s: string, p: char -> bool): (n: nat)
    ensures n <= |s|
    ensures forall i :: 0 <= i < n ==> p(s[i])
    ensures n < |s| ==> !p(s[n])
  {
    if s == [] || !p(s[0]) then 0 else 1 + Span(s[1..], p)
  }

  function LStrip(s: string): string {
    s[Span(s, IsSpace)..]
  }

  function RStrip(s: string): (r: string)
    ensures r <= s
    ensures r != "" ==> !IsSpace(r[|r| - 1])
  {
    if s == "" || !IsSpace(s[|s| - 1]) then s else RStrip(s[..|s| - 1])
  }

  function Strip(s: string): string {
    RStrip(LStrip(s))
  }

  /** The part of `s` before the first `c`. */
  function Before(s: string, c: char): string {
    s[..Span(s, x => x != c)]
  }

  /** Number of characters, newlines included. */
  function CharCount(t: Text): nat {
    if t == [] then 0 else if |t| == 1 then |t[0]| else |t[0]| + 1 + CharCount(t[1..])
  }

  /** `text.rstrip()`: blank lines at the end go, then the end of the last line. */
  function RStripText(t: Text): Text {
    if t == [] then []
    else
      var n := |t| - 1;
      var last := RStrip(t[n]);
      if last == "" && n > 0 then RStripText(t[..n]) else t[..n] + [last]
  }

  /** `text.lstrip()`. */
  function LStripText(t: Text): Text {
    if t == [] then []
    else
      var first := LStrip(t[0]);
      if first == "" && |t| > 1 then LStripText(t[1..]) else [first] + t[1..]
  }

  function StripText(t: Text): Text {
    RStripText(LStripText(t))
  }

  // ----- Decimal numbers -----

  function Digit(n: nat): char
    requires n < 10
  {
    n as char + '0'
  }

  function Dec(n: nat): (s: string)
    ensures s != "" && forall i :: 0 <= i < |s| ==> IsDigit(s[i])
  {
    if n < 10 then [Digit(n)] else Dec(n / 10) + [Digit(n % 10)]
  }

  function DigitValue(c: char): nat
    requires IsDigit(c)
  {
    c as int - '0' as int
  }

  function ToNat(s: string): nat
    requires forall i :: 0 <= i < |s| ==> IsDigit(s[i])
  {
    if s == "" then 0 else ToNat(s[..|s| - 1]) * 10 + DigitValue(s[|s| - 1])
  }

  lemma {:induction false} DecRoundTrip(n: nat)
    ensures ToNat(Dec(n)) == n
  {
    var s := Dec(n);
    if n < 10 {
      assert s[..0] == "";
    } else {
      DecRoundTrip(n / 10);
      assert s[..|s| - 1] == Dec(n / 10);
    }
  }

  lemma {:induction false} SpanOfPrefix(a: string, b: string, p: char -> bool)
    requires forall i :: 0 <= i < |a| ==> p(a[i])
    requires b == "" || !p(b[0])
    ensures Span(a + b, p) == |a|
  {
    if a == "" {
      assert a + b == b;
    } else {
      assert (a + b)[1..] == a[1..] + b;
      SpanOfPrefix(a[1..], b, p);
    }
  }

  lemma {:induction false} RStripExtends(s: string)
    ensures forall i :: |RStrip(s)| <= i < |s| ==> IsSpace(s[i])
  {
    if s != "" && IsSpace(s[|s| - 1]) {
      RStripExtends(s[..|s| - 1]);
    }
  }
}
