/** The unified finding shared by every stage, and the two orders on its ratings. */
module Models {
  import opened Options

  datatype Finding = Finding(
    filePath: string,
    lineStart: int,
    lineEnd: int,
    severity: string,
    category: string,
    title: string,
    explanation: string,
    remediation: string,
    confidence: string,
    source: string,
    ruleId: Option<string>,
    rawCategory: Option<string>,
    suggestedFix: Option<string>,
    diffLine: Option<int>,
    diffStartLine: Option<int>,
    diffSide: string,
    isInDiff: bool)

  function LowerChar(c: char): char {
    if 'A' <= c <= 'Z' then (c as int + 32) as char else c
  }

  function Lower(s: string): (r: string)
    ensures |r| == |s|
  {
    seq(|s|, i requires 0 <= i < |s| => LowerChar(s[i]))
  }

  lemma LowerTwice(s: string)
    ensures Lower(Lower(s)) == Lower(s)
  {
  }

  /** Position in the severity order: 0 is critical, 99 is unknown. */
  function SeverityRank(s: string): nat {
    var l := Lower(s);
    if l == "critical" then 0 else if l == "high" then 1 else if l == "medium" then 2 else if l == "low" then 3 else 99
  }

  /** 3 is high, 0 is unknown. */
  function ConfidenceRank(s: string): nat {
    var l := Lower(s);
    if l == "high" then 3 else if l == "medium" then 2 else if l == "low" then 1 else 0
  }

  /** The two scales, whatever the letter case; anything else ranks below. */
  lemma RatingScales(s: string)
    ensures SeverityRank("critical") < SeverityRank("high") < SeverityRank("medium") < SeverityRank("low")
    ensures ConfidenceRank("high") > ConfidenceRank("medium") > ConfidenceRank("low")
    ensures SeverityRank("CRITICAL") == SeverityRank("critical") && SeverityRank("HIGH") == SeverityRank("high")
    ensures SeverityRank("MEDIUM") == SeverityRank("medium") && SeverityRank("LOW") == SeverityRank("low")
    ensures ConfidenceRank("HIGH") == ConfidenceRank("high") && ConfidenceRank("MEDIUM") == ConfidenceRank("medium")
    ensures ConfidenceRank("LOW") == ConfidenceRank("low")
    ensures SeverityRank(s) == SeverityRank(Lower(s)) && ConfidenceRank(s) == ConfidenceRank(Lower(s))
    ensures Lower(s) !in ["critical", "high", "medium", "low"] ==> SeverityRank(s) > SeverityRank("low")
    ensures Lower(s) !in ["high", "medium", "low"] ==> ConfidenceRank(s) < ConfidenceRank("low")
  {
    LowerTwice(s);
    assert Lower("critical") == "critical" && Lower("high") == "high";
    assert Lower("medium") == "medium" && Lower("low") == "low";
    assert Lower("CRITICAL") == "critical" && Lower("HIGH") == "high";
    assert Lower("MEDIUM") == "medium" && Lower("LOW") == "low";
  }

  function HigherSeverity(a: string, b: string): (r: string)
    ensures SeverityRank(r) <= SeverityRank(a) && SeverityRank(r) <= SeverityRank(b)
    ensures r == a || (r == b && SeverityRank(b) < SeverityRank(a))
  {
    if SeverityRank(a) <= SeverityRank(b) then a else b
  }

  function HigherConfidence(a: string, b: string): (r: string)
    ensures ConfidenceRank(r) >= ConfidenceRank(a) && ConfidenceRank(r) >= ConfidenceRank(b)
    ensures r == a || (r == b && ConfidenceRank(b) > ConfidenceRank(a))
  {
    if ConfidenceRank(a) >= ConfidenceRank(b) then a else b
  }

  /** Python's `sub in s` on strings. */
  predicate Contains(s: string, sub: string) {
    exists i :: 0 <= i <= |s| && sub <= s[i..]
  }

  lemma ContainsSuffix(s: string, sub: string)
    ensures Contains(s + sub, sub)
  {
    assert (s + sub)[|s|..] == sub;
  }
}
