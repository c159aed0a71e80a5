/** The pattern-separation guard of deduplication: which tokens of a memory are
    load-bearing, and when two memories differ on them. */
module Separation {

  import opened Common

  predicate IsDigit(c: char) { '0' <= c <= '9' }

  predicate IsDigitOrComma(c: char) { IsDigit(c) || c == ',' }

  predicate IsLower(c: char) { 'a' <= c <= 'z' }

  /** The complement of the source's field splitter. */
  predicate IsFieldChar(c: char) { IsLower(c) || IsDigit(c) }

  /** A word character in the sense of the boundary assertion of regular expressions. */
  predicate IsWordChar(c: char) { IsFieldChar(c) || 'A' <= c <= 'Z' || c == '_' }

  function ToLowerChar(c: char): char {
    if 'A' <= c <= 'Z' then c - 'A' + 'a' else c
  }

  function ToLower(s: string): string {
    seq(|s|, i requires 0 <= i < |s| => ToLowerChar(s[i]))
  }

  /** Length of the longest prefix whose characters all satisfy `p`. */
  function Span(s: string, p: char -> bool): (n: nat)
    ensures n <= |s|
  {
    if s != "" && p(s[0]) then 1 + Span(s[1..], p) else 0
  }

  /** Length of the number token that starts a text: digits and commas, then an
      optional fraction. */
  function NumberLength(s: string): (n: nat)
    requires s != "" && IsDigit(s[0])
    ensures 1 <= n <= |s|
  {
    var n := 1 + Span(s[1..], IsDigitOrComma);
    if n + 1 < |s| && s[n] == '.' && IsDigit(s[n + 1]) then
      n + 1 + Span(s[n + 1..], IsDigit)
    else
      n
  }

  function NumberTokens(s: string): seq<string> {
    if s == "" then []
    else if IsDigit(s[0]) then
      var n := NumberLength(s);
      [s[..n]] + NumberTokens(s[n..])
    else
      NumberTokens(s[1..])
  }

  predicate IsYearAt(s: string, i: nat) {
    && i + 4 <= |s|
    && (s[i..i + 2] == "19" || s[i..i + 2] == "20")
    && IsDigit(s[i + 2]) && IsDigit(s[i + 3])
    && (i == 0 || !IsWordChar(s[i - 1]))
    && (i + 4 == |s| || !IsWordChar(s[i + 4]))
  }

  function YearTokens(s: string, i: nat): seq<string>
    decreases |s| - i
  {
    if i >= |s| then []
    else if IsYearAt(s, i) then [s[i..i + 4]] + YearTokens(s, i + 4)
    else YearTokens(s, i + 1)
  }

  function Fields(s: string): seq<string> {
    if s == "" then []
    else if IsFieldChar(s[0]) then
      var n := 1 + Span(s[1..], IsFieldChar);
      [s[..n]] + Fields(s[n..])
    else
      Fields(s[1..])
  }

  const NEGATION_MARKERS: set<string> := {
    "not", "never", "no", "none", "cannot", "cant", "dont", "doesnt", "didnt",
    "isnt", "arent", "wasnt", "werent", "wont", "without", "rejected", "denied",
    "declined", "reversed", "deprecated", "cancelled", "canceled", "invalid"
  }

  const MONTH_MARKERS: set<string> := {
    "january", "february", "march", "april", "may", "june", "july", "august",
    "september", "october", "november", "december", "jan", "feb", "mar", "apr",
    "jun", "jul", "aug", "sep", "sept", "oct", "nov", "dec"
  }

  function CanonicalMonth(m: string): string {
    if |m| >= 3 then m[..3] else m
  }

  predicate AllDigits(s: string) {
    forall c | c in s :: IsDigit(c)
  }

  /** One to three digits. */
  predicate IsLead(s: string) {
    1 <= |s| <= 3 && AllDigits(s)
  }

  /** US thousands grouping: a lead followed by one or more groups of a comma and
      three digits. */
  predicate IsGrouped(s: string) {
    && |s| >= 5
    && s[|s| - 4] == ','
    && AllDigits(s[|s| - 3..])
    && (IsLead(s[..|s| - 4]) || IsGrouped(s[..|s| - 4]))
  }

  function StripCommas(s: string): string {
    if s == "" then ""
    else
      var last := s[|s| - 1];
      var r := StripCommas(s[..|s| - 1]);
      if last == ',' then r else r + [last]
  }

  function NormalizeNumber(n: string): string {
    if IsGrouped(n) then StripCommas(n) else n
  }

  function NumberSet(s: string): set<string> {
    set t | t in NumberTokens(s) :: NormalizeNumber(t)
  }

  function DateSet(s: string): set<string> {
    Elements(YearTokens(s, 0)) +
    set w | w in Fields(s) && w in MONTH_MARKERS :: CanonicalMonth(w)
  }

  function NegationSet(s: string): set<string> {
    set w | w in Fields(s) && w in NEGATION_MARKERS
  }

  /** Everything the guard compares. */
  datatype Signature = Signature(numbers: set<string>, dates: set<string>, negations: set<string>)

  function LoadBearingText(concept: string, content: string): string {
    ToLower(concept + " " + content)
  }

  function SignatureOf(concept: string, content: string): Signature {
    var t := LoadBearingText(concept, content);
    Signature(NumberSet(t), DateSet(t), NegationSet(t))
  }

  /** The set comparison: a length test, then one membership loop. */
  method EqualStringSet(a: set<string>, b: set<string>) returns (eq: bool)
    ensures eq <==> a == b
  {
    if |a| != |b| {
      return false;
    }
    var rest := a;
    while rest != {}
      invariant rest <= a
      invariant a - rest <= b
      decreases rest
    {
      var k :| k in rest;
      if k !in b {
        return false;
      }
      rest := rest - {k};
    }
    SubsetSize(a, b);
    return true;
  }

  /** Three set comparisons with early exits decide equality of signatures. */
  method DivergesOnLoadBearingToken(conceptA: string, contentA: string, conceptB: string, contentB: string)
    returns (diverges: bool)
    ensures diverges <==> SignatureOf(conceptA, contentA) != SignatureOf(conceptB, contentB)
  {
    var ta := LoadBearingText(conceptA, contentA);
    var tb := LoadBearingText(conceptB, contentB);
    var numbers := EqualStringSet(NumberSet(ta), NumberSet(tb));
    if !numbers {
      return true;
    }
    var dates := EqualStringSet(DateSet(ta), DateSet(tb));
    if !dates {
      return true;
    }
    var negations := EqualStringSet(NegationSet(ta), NegationSet(tb));
    return !negations;
  }

  /** Stripping leaves no comma, and changes nothing when there is none. */
  lemma {:induction false} StripNoComma(s: string)
    ensures ',' !in StripCommas(s)
    ensures ',' !in s ==> StripCommas(s) == s
  {
    if s != "" {
      StripNoComma(s[..|s| - 1]);
      assert s == s[..|s| - 1] + [s[|s| - 1]];
    }
  }

  lemma {:induction false} StripConcat(s: string, t: string)
    ensures StripCommas(s + t) == StripCommas(s) + StripCommas(t)
  {
    if t == "" {
      assert s + t == s;
    } else {
      assert (s + t)[..|s + t| - 1] == s + t[..|t| - 1];
      StripConcat(s, t[..|t| - 1]);
    }
  }

  /** A grouped number is a shorter one, a comma and three digits. */
  lemma GroupedParts(s: string) returns (head: string, group: string)
    requires IsGrouped(s)
    ensures s == head + "," + group && |group| == 3
    ensures StripCommas(s) == StripCommas(head) + group
    ensures IsLead(head) || IsGrouped(head)
  {
    head, group := s[..|s| - 4], s[|s| - 3..];
    assert s == head + "," + group;
    StripConcat(head + ",", group);
    StripConcat(head, ",");
    assert StripCommas(",") == "";
    StripNoComma(group);
  }

  /** What precedes the last group is told apart by its number of digits. */
  lemma HeadKind(p: string)
    requires IsLead(p) || IsGrouped(p)
    ensures if IsLead(p) then |StripCommas(p)| <= 3 && StripCommas(p) == p
            else |StripCommas(p)| > 3 && IsGrouped(p)
  {
    StripNoComma(p);
    if !IsLead(p) {
      var head, group := GroupedParts(p);
      assert |StripCommas(head)| >= 1 by {
        StripNoComma(head);
        if !IsLead(head) {
          var h, g := GroupedParts(head);
        }
      }
    }
  }

  /** The grouping of a digit string is unique: two grouped numbers with the same
      digits are the same text. */
  lemma {:induction false} GroupingIsUnique(x: string, y: string)
    requires IsGrouped(x) && IsGrouped(y)
    requires StripCommas(x) == StripCommas(y)
    ensures x == y
    decreases |x|
  {
    var px, gx := GroupedParts(x);
    var py, gy := GroupedParts(y);
    SameSplit(StripCommas(px), gx, StripCommas(py), gy);
    HeadKind(px);
    HeadKind(py);
    if !IsLead(px) {
      GroupingIsUnique(px, py);
    }
  }

  lemma SameSplit<T>(a: seq<T>, b: seq<T>, c: seq<T>, d: seq<T>)
    requires a + b == c + d && |b| == |d|
    ensures a == c && b == d
  {
    assert a == (a + b)[..|a|] && c == (c + d)[..|c|];
    assert b == (a + b)[|a|..] && d == (c + d)[|c|..];
  }

  /** Normalization merges two different texts exactly when one of them is the
      thousands grouping of the other. */
  lemma NormalizeNumberMerges(x: string, y: string)
    requires x != y
    ensures NormalizeNumber(x) == NormalizeNumber(y) <==>
            (IsGrouped(x) && StripCommas(x) == y) || (IsGrouped(y) && StripCommas(y) == x)
  {
    StrippedIsUngrouped(x);
    StrippedIsUngrouped(y);
    if IsGrouped(x) && IsGrouped(y) && StripCommas(x) == StripCommas(y) {
      GroupingIsUnique(x, y);
    }
  }

  lemma StrippedIsUngrouped(s: string)
    ensures !IsGrouped(StripCommas(s))
  {
    StripNoComma(s);
  }
}
