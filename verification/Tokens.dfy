/** What the tokenizers of the separation guard find, in terms of the text alone: the
    fields, the years, the number tokens, and which differences between two texts make
    them diverge. */
module Tokens {

  import opened Separation

  // ---------- Characters ----------

  const DIGITS := "0123456789"
  const LETTERS := "abcdefghijklmnopqrstuvwxyz"
  const CAPITALS := "ABCDEFGHIJKLMNOPQRSTUVWXYZ"

  lemma CharacterClasses(c: char)
    ensures IsDigit(c) <==> c in DIGITS
    ensures IsFieldChar(c) <==> c in DIGITS || c in LETTERS
    ensures IsWordChar(c) <==> c in DIGITS || c in LETTERS || c in CAPITALS || c == '_'
    ensures IsDigitOrComma(c) <==> c in DIGITS || c == ','
  {
  }

  predicate Numeral(c: char) {
    c in DIGITS
  }

  predicate FieldLetter(c: char) {
    c in DIGITS || c in LETTERS
  }

  predicate Wordy(c: char) {
    c in DIGITS || c in LETTERS || c in CAPITALS || c == '_'
  }

  lemma AllClasses()
    ensures forall c :: IsDigit(c) <==> Numeral(c)
    ensures forall c :: IsFieldChar(c) <==> FieldLetter(c)
    ensures forall c :: IsWordChar(c) <==> Wordy(c)
    ensures forall c :: IsDigitOrComma(c) <==> Numeral(c) || c == ','
  {
    forall c: char
      ensures IsDigit(c) <==> Numeral(c)
      ensures IsFieldChar(c) <==> FieldLetter(c)
      ensures IsWordChar(c) <==> Wordy(c)
      ensures IsDigitOrComma(c) <==> Numeral(c) || c == ','
    {
      CharacterClasses(c);
    }
  }

  /** The compared text: concept, a space, content, with capitals made small. */
  lemma TextIsBoth(concept: string, content: string)
    ensures var t, raw := LoadBearingText(concept, content), concept + " " + content;
            && |t| == |raw|
            && forall i | 0 <= i < |t| ::
                 t[i] == if 'A' <= raw[i] <= 'Z' then (raw[i] as int + 32) as char else raw[i]
  {
  }

  lemma {:induction false} SpanFacts(s: string, p: char -> bool)
    ensures forall k | 0 <= k < Span(s, p) :: p(s[k])
    ensures Span(s, p) < |s| ==> !p(s[Span(s, p)])
  {
    if s != "" && p(s[0]) {
      SpanFacts(s[1..], p);
      assert forall k | 0 < k < |s| :: s[k] == s[1..][k - 1];
    }
  }

  // ---------- Fields ----------

  /** A maximal run of small letters and digits. */
  ghost predicate IsFieldAt(s: string, i: int, j: int) {
    && 0 <= i < j <= |s|
    && (forall k | i <= k < j :: FieldLetter(s[k]))
    && (i == 0 || !FieldLetter(s[i - 1])) && (j == |s| || !FieldLetter(s[j]))
  }

  ghost predicate HasField(s: string, w: string) {
    exists i, j :: IsFieldAt(s, i, j) && s[i..j] == w
  }

  /** The first run, and what follows it. */
  lemma FirstField(s: string) returns (n: nat)
    requires s != "" && IsFieldChar(s[0])
    ensures 0 < n <= |s| && Fields(s) == [s[..n]] + Fields(s[n..])
    ensures (forall k | 0 <= k < n :: IsFieldChar(s[k])) && (n < |s| ==> !IsFieldChar(s[n]))
  {
    n := 1 + Span(s[1..], IsFieldChar);
    SpanFacts(s[1..], IsFieldChar);
    assert forall k | 0 < k < |s| :: s[k] == s[1..][k - 1];
  }

  /** No field runs across position `n`. */
  ghost predicate Cut(s: string, n: nat) {
    0 < n <= |s| && (n == |s| || !FieldLetter(s[n]) || !FieldLetter(s[n - 1]))
  }

  lemma TailField(s: string, n: nat, i: int, j: int)
    requires Cut(s, n) && IsFieldAt(s[n..], i, j)
    ensures IsFieldAt(s, n + i, n + j) && s[n + i..n + j] == s[n..][i..j]
  {
    hide FieldLetter;
    assert forall k | n <= k < |s| :: s[k] == s[n..][k - n];
  }

  lemma TailHasField(s: string, n: nat, w: string)
    requires Cut(s, n) && HasField(s[n..], w)
    ensures HasField(s, w)
  {
    var i, j :| IsFieldAt(s[n..], i, j) && s[n..][i..j] == w;
    TailField(s, n, i, j);
  }

  lemma FieldInTail(s: string, n: nat, i: int, j: int)
    requires Cut(s, n) && n <= i && IsFieldAt(s, i, j)
    ensures HasField(s[n..], s[i..j])
  {
    hide FieldLetter;
    assert forall k | 0 <= k < |s| - n :: s[n..][k] == s[n + k];
    assert IsFieldAt(s[n..], i - n, j - n) && s[n..][i - n..j - n] == s[i..j];
  }

  /** A field that starts before the end of the first run is that run. */
  lemma FieldAtFront(s: string, n: nat, i: int, j: int)
    requires IsFieldAt(s, i, j) && i < n <= |s| && (n == |s| || !FieldLetter(s[n]))
    requires (n == 1 && !FieldLetter(s[0])) || forall k | 0 <= k < n :: FieldLetter(s[k])
    ensures i == 0 && j == n && FieldLetter(s[0])
  {
    hide FieldLetter;
    assert FieldLetter(s[i]);
  }

  lemma SkipField(s: string, w: string)
    requires s != "" && !IsFieldChar(s[0])
    ensures HasField(s, w) <==> HasField(s[1..], w)
  {
    AllClasses();
    hide IsFieldChar, FieldLetter;
    assert Cut(s, 1);
    if HasField(s[1..], w) {
      TailHasField(s, 1, w);
    }
    if i, j :| IsFieldAt(s, i, j) && s[i..j] == w {
      assert FieldLetter(s[i]);
      FieldInTail(s, 1, i, j);
    }
  }

  lemma TakeField(s: string, n: nat, w: string)
    requires 0 < n <= |s| && (forall k | 0 <= k < n :: IsFieldChar(s[k])) && (n < |s| ==> !IsFieldChar(s[n]))
    ensures HasField(s, w) <==> s[..n] == w || HasField(s[n..], w)
  {
    AllClasses();
    hide IsFieldChar, FieldLetter;
    assert Cut(s, n) && IsFieldAt(s, 0, n) && s[0..n] == s[..n];
    if HasField(s[n..], w) {
      TailHasField(s, n, w);
    }
    if i, j :| IsFieldAt(s, i, j) && s[i..j] == w {
      if i < n {
        FieldAtFront(s, n, i, j);
      } else {
        FieldInTail(s, n, i, j);
      }
    }
  }

  /** Splitting finds exactly the maximal runs. */
  lemma {:induction false} FieldsAreRuns(s: string, w: string)
    ensures w in Fields(s) <==> HasField(s, w)
  {
    hide HasField, IsFieldChar;
    if s == "" {
      NoFields(w);
    } else if IsFieldChar(s[0]) {
      var n := FirstField(s);
      TakeField(s, n, w);
      FieldsAreRuns(s[n..], w);
    } else {
      SkipField(s, w);
      FieldsAreRuns(s[1..], w);
    }
  }

  lemma NoFields(w: string)
    ensures !HasField("", w)
  {
  }

  // ---------- Years ----------

  /** Four digits from 1900 to 2099 that no word character touches. */
  ghost predicate IsYearSlice(s: string, i: int) {
    && 0 <= i && i + 4 <= |s|
    && ((s[i] == '1' && s[i + 1] == '9') || (s[i] == '2' && s[i + 1] == '0'))
    && Numeral(s[i + 2]) && Numeral(s[i + 3])
    && (i == 0 || !Wordy(s[i - 1])) && (i + 4 == |s| || !Wordy(s[i + 4]))
  }

  lemma YearIsSlice(s: string, i: nat)
    ensures IsYearAt(s, i) <==> IsYearSlice(s, i)
  {
    AllClasses();
    hide Wordy, IsWordChar, Numeral, IsDigit;
    if i + 4 <= |s| {
      assert s[i..i + 2] == [s[i], s[i + 1]];
    }
  }

  lemma YearsApart(s: string, i: int, j: int)
    requires IsYearSlice(s, i) && i < j < i + 4
    ensures !IsYearSlice(s, j)
  {
    assert Numeral(s[j - 1]) && Wordy(s[j - 1]);
  }

  ghost predicate HasYear(s: string, from: int, y: string) {
    exists i :: from <= i && IsYearSlice(s, i) && s[i..i + 4] == y
  }

  /** Scanning finds exactly the bounded years: none overlaps another. */
  lemma {:induction false} YearsAreSlices(s: string, from: nat, y: string)
    ensures y in YearTokens(s, from) <==> HasYear(s, from, y)
    decreases |s| - from
  {
    if from < |s| {
      YearIsSlice(s, from);
      var next := if IsYearAt(s, from) then from + 4 else from + 1;
      YearsAreSlices(s, next, y);
      forall i | from < i < next
        ensures !IsYearSlice(s, i)
      {
        YearsApart(s, from, i);
      }
      hide IsYearAt, IsYearSlice;
      if HasYear(s, next, y) {
        var i :| next <= i && IsYearSlice(s, i) && s[i..i + 4] == y;
        assert from <= i;
      }
      if HasYear(s, from, y) {
        var i :| from <= i && IsYearSlice(s, i) && s[i..i + 4] == y;
        assert i == from || next <= i;
      }
    }
  }

  // ---------- Numbers ----------

  /** A digit, digits and commas, and a fraction if one follows: as much as there is. */
  ghost predicate IsNumberAt(s: string, i: int, j: int) {
    && 0 <= i < j <= |s| && Numeral(s[i])
    && exists m :: EndsWhole(s, i, m) && EndsNumber(s, m, j)
  }

  ghost predicate EndsWhole(s: string, i: int, m: int) {
    && 0 <= i < m <= |s| && (forall k | i < k < m :: Numeral(s[k]) || s[k] == ',')
    && (m == |s| || !(Numeral(s[m]) || s[m] == ','))
  }

  ghost predicate EndsNumber(s: string, m: int, j: int) {
    if 0 <= m && m + 1 < |s| && s[m] == '.' && Numeral(s[m + 1]) then
      m + 1 < j <= |s| && (forall k | m < k < j :: Numeral(s[k])) && (j == |s| || !Numeral(s[j]))
    else
      j == m
  }

  lemma NumberLengthIsNumber(s: string)
    requires s != "" && IsDigit(s[0])
    ensures IsNumberAt(s, 0, NumberLength(s))
  {
    AllClasses();
    hide Numeral, IsDigit, IsDigitOrComma;
    var m := 1 + Span(s[1..], IsDigitOrComma);
    SpanFacts(s[1..], IsDigitOrComma);
    assert forall k | 0 < k < |s| :: s[k] == s[1..][k - 1];
    assert EndsWhole(s, 0, m);
    if m + 1 < |s| && s[m] == '.' && IsDigit(s[m + 1]) {
      SpanFacts(s[m + 1..], IsDigit);
      assert forall k | m < k < |s| :: s[k] == s[m + 1..][k - m - 1];
    }
    assert EndsNumber(s, m, NumberLength(s));
  }

  lemma NumberOfTail(s: string, n: nat, i: int, j: int)
    requires n <= |s| && 0 <= i && IsNumberAt(s[n..], i, j)
    ensures IsNumberAt(s, n + i, n + j) && s[n + i..n + j] == s[n..][i..j]
  {
    var t := s[n..];
    assert forall k | n <= k < |s| :: s[k] == t[k - n];
    var m :| EndsWhole(t, i, m) && EndsNumber(t, m, j);
    assert EndsWhole(s, n + i, n + m);
    assert EndsNumber(s, n + m, n + j);
  }

  /** Tokens in order, none overlapping another, each a whole number. */
  ghost predicate Scanned(s: string, from: int, spans: seq<(int, int)>) {
    && (forall x | 0 <= x < |spans| :: from <= spans[x].0 && IsNumberAt(s, spans[x].0, spans[x].1))
    && (forall x, y | 0 <= x < y < |spans| :: spans[x].1 <= spans[y].0)
  }

  /** Every digit from `from` on lies in one of them. */
  ghost predicate Covered(s: string, from: int, spans: seq<(int, int)>) {
    forall p | 0 <= from <= p < |s| && Numeral(s[p]) :: exists x :: InSpan(spans, x, p)
  }

  ghost predicate InSpan(spans: seq<(int, int)>, x: int, p: int) {
    0 <= x < |spans| && spans[x].0 <= p < spans[x].1
  }

  ghost predicate TokensAt(s: string, tokens: seq<string>, spans: seq<(int, int)>) {
    |tokens| == |spans| && forall x | 0 <= x < |spans| ::
      0 <= spans[x].0 <= spans[x].1 <= |s| && tokens[x] == s[spans[x].0..spans[x].1]
  }

  /** The number tokens are slices in order; every digit of the text lies in exactly one. */
  lemma {:induction false} NumbersAreSpans(s: string, from: nat) returns (spans: seq<(int, int)>)
    requires from <= |s|
    ensures Scanned(s, from, spans) && Covered(s, from, spans) && TokensAt(s, NumberTokens(s[from..]), spans)
    decreases |s| - from
  {
    var t := s[from..];
    if t == "" {
      spans := [];
    } else {
      AllClasses();
      if IsDigit(t[0]) {
        var n := NumberLength(t);
        NumberLengthIsNumber(t);
        NumberOfTail(s, from, 0, n);
        var rest := NumbersAreSpans(s, from + n);
        assert t[n..] == s[from + n..];
        spans := [(from, from + n)] + rest;
        ConsSpans(s, from, n, rest);
      } else {
        spans := NumbersAreSpans(s, from + 1);
        assert t[1..] == s[from + 1..];
      }
    }
  }

  lemma ConsSpans(s: string, from: nat, n: nat, rest: seq<(int, int)>)
    requires 0 < n && from + n <= |s| && IsNumberAt(s, from, from + n)
    requires Scanned(s, from + n, rest) && Covered(s, from + n, rest)
    requires TokensAt(s, NumberTokens(s[from + n..]), rest)
    ensures var spans := [(from, from + n)] + rest;
            && Scanned(s, from, spans) && Covered(s, from, spans)
            && TokensAt(s, [s[from..from + n]] + NumberTokens(s[from + n..]), spans)
  {
    hide IsNumberAt, NumberTokens, Numeral;
    var spans := [(from, from + n)] + rest;
    forall p | from <= p < |s| && Numeral(s[p])
      ensures exists x :: InSpan(spans, x, p)
    {
      if p < from + n {
        assert InSpan(spans, 0, p);
      } else {
        var x :| InSpan(rest, x, p);
        assert InSpan(spans, x + 1, p);
      }
    }
  }

  // ---------- Thousands ----------

  /** Position `i` separates groups of three after a lead of `a` characters. */
  predicate IsSeparator(a: int, i: int) {
    i >= a && (i - a) % 4 == 0
  }

  /** A lead of one to three digits and then groups of a comma and three digits. */
  ghost predicate GroupedAs(s: string, a: int) {
    && 1 <= a <= 3 && a < |s| && IsSeparator(a, |s|)
    && forall i | 0 <= i < |s| :: if IsSeparator(a, i) then s[i] == ',' else Numeral(s[i])
  }

  lemma SeparatorStep(a: int, n: int)
    requires a <= n
    ensures IsSeparator(a, n + 4) <==> IsSeparator(a, n)
    ensures IsSeparator(a, n) ==> !IsSeparator(a, n + 1) && !IsSeparator(a, n + 2) && !IsSeparator(a, n + 3)
    ensures IsSeparator(a, a)
  {
  }

  lemma DigitsAreNumerals(s: string)
    ensures AllDigits(s) <==> forall i | 0 <= i < |s| :: Numeral(s[i])
  {
    AllClasses();
    hide Numeral, IsDigit;
    assert forall c :: c in s <==> exists i :: 0 <= i < |s| && s[i] == c;
  }

  /** The last group: a comma and three digits after `init`. */
  ghost predicate LastGroup(s: string, init: string) {
    && |s| == |init| + 4 && init <= s && s[|init|] == ','
    && Numeral(s[|init| + 1]) && Numeral(s[|init| + 2]) && Numeral(s[|init| + 3])
  }

  lemma GroupedStep(s: string)
    ensures IsGrouped(s) <==>
            |s| >= 5 && LastGroup(s, s[..|s| - 4]) && (IsLead(s[..|s| - 4]) || IsGrouped(s[..|s| - 4]))
  {
    hide Numeral, AllDigits, IsLead;
    if |s| >= 5 {
      ThreeDigits(s[|s| - 3..]);
    }
  }

  lemma ThreeDigits(t: string)
    requires |t| == 3
    ensures AllDigits(t) <==> Numeral(t[0]) && Numeral(t[1]) && Numeral(t[2])
  {
    DigitsAreNumerals(t);
    hide Numeral, AllDigits;
  }

  lemma AddGroup(s: string, init: string, a: int)
    requires LastGroup(s, init) && ((a == |init| && IsLead(init)) || GroupedAs(init, a))
    ensures GroupedAs(s, a)
  {
    SeparatorStep(a, |init|);
    DigitsAreNumerals(init);
    hide Numeral, IsSeparator;
    assert forall i | 0 <= i < |init| :: s[i] == init[i];
    assert a == |init| ==> forall i | 0 <= i < a :: !IsSeparator(a, i) by {
      LeadHasNoSeparator(a);
    }
  }

  lemma LeadHasNoSeparator(a: int)
    ensures forall i | i < a :: !IsSeparator(a, i)
  {
  }

  lemma DropGroup(s: string, a: int)
    requires GroupedAs(s, a)
    ensures |s| >= 5 && LastGroup(s, s[..|s| - 4])
    ensures var init := s[..|s| - 4]; (a == |init| && IsLead(init)) || GroupedAs(init, a)
  {
    assert |s| - 4 >= a;
    var n := |s| - 4;
    SeparatorStep(a, n);
    LeadHasNoSeparator(a);
    DigitsAreNumerals(s[..n]);
    hide Numeral, IsSeparator;
    assert forall i | 0 <= i < n :: s[..n][i] == s[i];
  }

  /** Grouped means one to three digits and one or more groups of a comma and three digits. */
  lemma {:induction false} GroupedIff(s: string)
    ensures IsGrouped(s) <==> exists a :: GroupedAs(s, a)
  {
    GroupedStep(s);
    hide GroupedAs, IsLead, IsGrouped, LastGroup;
    if |s| >= 5 {
      var init := s[..|s| - 4];
      GroupedIff(init);
      if IsGrouped(s) {
        var a := |init|;
        if !IsLead(init) {
          a :| GroupedAs(init, a);
        }
        AddGroup(s, init, a);
      }
    }
    if a :| GroupedAs(s, a) {
      DropGroup(s, a);
    }
  }

  // ---------- Which differences diverge ----------

  /** A run of digits that neither digits, commas nor points touch. */
  ghost predicate PlainRun(s: string, i: int, j: int) {
    && 0 <= i < j <= |s| && (forall k | i <= k < j :: Numeral(s[k]))
    && (i == 0 || !(Numeral(s[i - 1]) || s[i - 1] == ',' || s[i - 1] == '.'))
    && (j == |s| || !(Numeral(s[j]) || s[j] == ',' || s[j] == '.'))
  }

  /** Inside a number token there are only digits, commas and points. */
  lemma NumberCharacters(s: string, i: int, j: int, k: int)
    requires IsNumberAt(s, i, j) && i <= k < j
    ensures Numeral(s[k]) || s[k] == ',' || s[k] == '.'
  {
    hide Numeral;
    var m :| EndsWhole(s, i, m) && EndsNumber(s, m, j);
  }

  /** A number token that starts with a plain run is that run. */
  lemma PlainNumber(s: string, i: int, j: int, e: int)
    requires PlainRun(s, i, j) && IsNumberAt(s, i, e)
    ensures e == j
  {
    NoNumeral();
    hide Numeral;
    var m :| EndsWhole(s, i, m) && EndsNumber(s, m, e);
    assert m >= j;
  }

  lemma NoNumeral()
    ensures !Numeral(',') && !Numeral('.')
  {
  }

  /** Text without a comma is not grouped, so it stands for itself. */
  lemma PlainNormalizes(d: string)
    requires ',' !in d
    ensures NormalizeNumber(d) == d
  {
    assert |d| >= 5 ==> d[|d| - 4] in d;
  }

  lemma TokenIsNumber(s: string, t: string)
    requires t in NumberTokens(s)
    ensures NormalizeNumber(t) in NumberSet(s)
  {
  }

  /** The token that holds the first digit of a plain run is the run. */
  lemma SpanOfRun(s: string, i: int, j: int, b: int, e: int)
    requires PlainRun(s, i, j) && IsNumberAt(s, b, e) && b <= i < e
    ensures b == i && e == j
  {
    NoNumeral();
    hide Numeral;
    if b < i {
      NumberCharacters(s, b, e, i - 1);
    } else {
      PlainNumber(s, i, j, e);
    }
  }

  lemma PlainRunNormalizes(s: string, i: int, j: int)
    requires PlainRun(s, i, j)
    ensures NormalizeNumber(s[i..j]) == s[i..j]
  {
    NoNumeral();
    hide Numeral;
    PlainNormalizes(s[i..j]);
  }

  /** A plain run is among the numbers of its text. */
  lemma PlainRunIsNumber(s: string, i: int, j: int)
    requires PlainRun(s, i, j)
    ensures s[i..j] in NumberSet(s)
  {
    var spans := NumbersAreSpans(s, 0);
    assert s[0..] == s && Numeral(s[i]);
    hide Numeral, IsNumberAt, NumberTokens, NumberSet, NormalizeNumber;
    var x :| InSpan(spans, x, i);
    SpanOfRun(s, i, j, spans[x].0, spans[x].1);
    assert NumberTokens(s)[x] == s[i..j];
    PlainRunNormalizes(s, i, j);
    hide PlainRun;
    TokenIsNumber(s, s[i..j]);
  }

  /** Every number of a text is some whole number in it, normalized. */
  lemma NumberIsInText(s: string, v: string)
    requires v in NumberSet(s)
    ensures exists i, j :: IsNumberAt(s, i, j) && NormalizeNumber(s[i..j]) == v
  {
    var spans := NumbersAreSpans(s, 0);
    assert s[0..] == s;
    hide IsNumberAt, NumberTokens, NormalizeNumber, Covered;
    var t :| t in NumberTokens(s) && NormalizeNumber(t) == v;
    hide NumberSet;
    var x :| 0 <= x < |NumberTokens(s)| && NumberTokens(s)[x] == t;
    SpannedToken(s, spans, x);
  }

  lemma SpannedToken(s: string, spans: seq<(int, int)>, x: int)
    requires Scanned(s, 0, spans) && TokensAt(s, NumberTokens(s), spans) && 0 <= x < |NumberTokens(s)|
    ensures x < |spans| && 0 <= spans[x].0 <= spans[x].1 <= |s| && IsNumberAt(s, spans[x].0, spans[x].1)
    ensures NumberTokens(s)[x] == s[spans[x].0..spans[x].1]
  {
    hide NumberTokens;
  }

  /** Two texts diverge when one has a plain run of digits that no number in the other
      stands for. */
  lemma DigitRunDiverges(conceptA: string, contentA: string, conceptB: string, contentB: string, i: int, j: int)
    requires PlainRun(LoadBearingText(conceptA, contentA), i, j)
    requires var a, b := LoadBearingText(conceptA, contentA), LoadBearingText(conceptB, contentB);
             forall k, l | IsNumberAt(b, k, l) :: NormalizeNumber(b[k..l]) != a[i..j]
    ensures SignatureOf(conceptA, contentA) != SignatureOf(conceptB, contentB)
  {
    var a, b := LoadBearingText(conceptA, contentA), LoadBearingText(conceptB, contentB);
    PlainRunIsNumber(a, i, j);
    hide PlainRun, IsNumberAt, NumberSet, LoadBearingText, NormalizeNumber;
    if a[i..j] in NumberSet(b) {
      NumberIsInText(b, a[i..j]);
      assert false;
    }
  }

  /** The negations of a text are its fields that are markers. */
  lemma NegationsAreFields(s: string, w: string)
    ensures w in NegationSet(s) <==> w in NEGATION_MARKERS && HasField(s, w)
  {
    FieldsAreRuns(s, w);
    hide HasField, Fields;
  }

  /** Two texts diverge when one has a negation marker as a field and the other has not. */
  lemma NegationDiverges(conceptA: string, contentA: string, conceptB: string, contentB: string, w: string)
    requires w in NEGATION_MARKERS && HasField(LoadBearingText(conceptA, contentA), w)
    requires !HasField(LoadBearingText(conceptB, contentB), w)
    ensures SignatureOf(conceptA, contentA) != SignatureOf(conceptB, contentB)
  {
    NegationsAreFields(LoadBearingText(conceptA, contentA), w);
    NegationsAreFields(LoadBearingText(conceptB, contentB), w);
    hide HasField, NegationSet, LoadBearingText, NEGATION_MARKERS;
  }

  /** The dates of a text are its bounded years and the first three letters of its months. */
  lemma DatesAreYearsAndMonths(s: string, v: string)
    ensures v in DateSet(s) <==>
            HasYear(s, 0, v) || exists w :: w in MONTH_MARKERS && HasField(s, w) && v == w[..3]
  {
    YearsAreSlices(s, 0, v);
    MonthsAreLong();
    forall w
      ensures w in Fields(s) <==> HasField(s, w)
    {
      FieldsAreRuns(s, w);
    }
    hide HasField, HasYear, Fields, YearTokens, MONTH_MARKERS;
    if w :| w in MONTH_MARKERS && HasField(s, w) && v == w[..3] {
      assert w in Fields(s) && CanonicalMonth(w) == v;
    }
  }

  lemma MonthsAreLong()
    ensures forall w | w in MONTH_MARKERS :: |w| >= 3
  {
  }
}
