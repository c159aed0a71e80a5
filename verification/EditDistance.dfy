/** The typo suggestion of the REPL: a two-row edit-distance table and a scan of the
    known commands. */
module EditDistance {

  // ---------- Edit scripts ----------

  datatype Edit = Insert(pos: nat, c: char) | Delete(pos: nat) | Substitute(pos: nat, c: char)

  predicate Applicable(s: string, e: Edit) {
    if e.Insert? then e.pos <= |s| else e.pos < |s|
  }

  function Apply(s: string, e: Edit): string
    requires Applicable(s, e)
  {
    match e
    case Insert(p, c) => s[..p] + [c] + s[p..]
    case Delete(p) => s[..p] + s[p + 1..]
    case Substitute(p, c) => s[..p] + [c] + s[p + 1..]
  }

  /** The script, one edit after the other, turns `a` into `b`. */
  predicate Transforms(a: string, script: seq<Edit>, b: string)
    decreases |script|
  {
    if script == [] then a == b
    else Applicable(a, script[0]) && Transforms(Apply(a, script[0]), script[1..], b)
  }

  // ---------- The textbook recurrence ----------

  function Init(s: string): string
    requires s != ""
  {
    s[..|s| - 1]
  }

  function Last(s: string): char
    requires s != ""
  {
    s[|s| - 1]
  }

  function MinOf3(a: int, b: int, c: int): int {
    if a < b then (if a < c then a else c)
    else if b < c then b else c
  }

  function Cost(x: char, y: char): nat {
    if x == y then 0 else 1
  }

  function Distance(a: string, b: string): nat
    decreases |a| + |b|
  {
    if a == "" then |b|
    else if b == "" then |a|
    else MinOf3(Distance(Init(a), b) + 1, Distance(a, Init(b)) + 1, Distance(Init(a), Init(b)) + Cost(Last(a), Last(b)))
  }

  lemma {:induction false} DistanceSymmetric(a: string, b: string)
    ensures Distance(a, b) == Distance(b, a)
    decreases |a| + |b|
  {
    if a != "" && b != "" {
      DistanceSymmetric(Init(a), b);
      DistanceSymmetric(a, Init(b));
      DistanceSymmetric(Init(a), Init(b));
    }
  }

  lemma {:induction false} DistanceSelf(a: string)
    ensures Distance(a, a) == 0
  {
    if a != "" {
      DistanceSelf(Init(a));
    }
  }

  lemma AddLast(a: string, b: string)
    requires a != ""
    ensures Distance(a, b) <= Distance(Init(a), b) + 1
  {
  }

  lemma {:induction false} DropLast(a: string, b: string)
    requires a != ""
    ensures Distance(Init(a), b) <= Distance(a, b) + 1
    decreases |b|
  {
    if b != "" {
      DropLast(a, Init(b));
      DistanceSymmetric(Init(a), b);
      DistanceSymmetric(Init(a), Init(b));
      AddLast(b, Init(a));
    }
  }

  /** Equal last characters may take the diagonal without a minimum. */
  lemma EqualLast(a: string, b: string)
    requires a != "" && b != "" && Last(a) == Last(b)
    ensures Distance(a, b) == Distance(Init(a), Init(b))
  {
    DropLast(a, Init(b));
    DropLast(b, Init(a));
    DistanceSymmetric(Init(a), b);
    DistanceSymmetric(Init(a), Init(b));
  }

  // ---------- No script is shorter ----------

  /** One edit away from the end of `a`: it edits the rest and keeps the last character. */
  lemma EditBeforeLast(a: string, e: Edit)
    requires a != "" && Applicable(Init(a), e)
    ensures Applicable(a, e) && Apply(a, e) == Apply(Init(a), e) + [Last(a)]
  {
    var p := e.pos;
    assert a == Init(a) + [Last(a)];
    assert a[..p] == Init(a)[..p];
    if e.Insert? {
      assert a[p..] == Init(a)[p..] + [Last(a)];
    } else {
      assert a[p + 1..] == Init(a)[p + 1..] + [Last(a)];
    }
  }

  lemma {:induction false} OneEdit(a: string, e: Edit, b: string)
    requires Applicable(a, e)
    ensures Distance(a, b) <= 1 + Distance(Apply(a, e), b)
    decreases |a| + |b|
  {
    var a' := Apply(a, e);
    if e.Insert? && e.pos == |a| {
      assert a' == a + [e.c] && Init(a') == a;
      DropLast(a', b);
    } else if e.Delete? && e.pos == |a| - 1 {
      assert a' == Init(a);
      AddLast(a, b);
    } else if e.Substitute? && e.pos == |a| - 1 {
      assert a' == Init(a) + [e.c] && Init(a') == Init(a);
      if b != "" {
        OneEdit(a, e, Init(b));
      }
    } else {
      EditBeforeLast(a, e);
      var t := Apply(Init(a), e);
      assert Init(a') == t && Last(a') == Last(a);
      if b != "" {
        OneEdit(Init(a), e, b);
        OneEdit(a, e, Init(b));
        OneEdit(Init(a), e, Init(b));
      }
    }
  }

  lemma {:induction false} NoShorterScript(a: string, script: seq<Edit>, b: string)
    requires Transforms(a, script, b)
    ensures Distance(a, b) <= |script|
    decreases |script|
  {
    if script == [] {
      DistanceSelf(a);
    } else {
      NoShorterScript(Apply(a, script[0]), script[1..], b);
      OneEdit(a, script[0], b);
    }
  }

  // ---------- A script of that length ----------

  lemma {:induction false} TransformsConcat(a: string, s: seq<Edit>, b: string, t: seq<Edit>, c: string)
    requires Transforms(a, s, b) && Transforms(b, t, c)
    ensures Transforms(a, s + t, c)
    decreases |s|
  {
    hide Apply, Applicable;
    if s == [] {
      assert s + t == t;
    } else {
      TransformsConcat(Apply(a, s[0]), s[1..], b, t, c);
      assert (s + t)[1..] == s[1..] + t;
    }
  }

  lemma {:induction false} TransformsUnder(a: string, s: seq<Edit>, b: string, x: char)
    requires Transforms(a, s, b)
    ensures Transforms(a + [x], s, b + [x])
    decreases |s|
  {
    if s != [] {
      assert Init(a + [x]) == a;
      EditBeforeLast(a + [x], s[0]);
      TransformsUnder(Apply(a, s[0]), s[1..], b, x);
    }
  }

  lemma OneStep(a: string, e: Edit)
    requires Applicable(a, e)
    ensures Transforms(a, [e], Apply(a, e))
  {
  }

  lemma DeleteFirst(a: string, t: seq<Edit>, b: string)
    requires a != "" && Transforms(Init(a), t, b)
    ensures Transforms(a, [Delete(|a| - 1)] + t, b)
  {
    var e := Delete(|a| - 1);
    assert Apply(a, e) == Init(a);
    OneStep(a, e);
    TransformsConcat(a, [e], Init(a), t, b);
  }

  lemma InsertAfter(a: string, t: seq<Edit>, b: string)
    requires b != "" && Transforms(a, t, Init(b))
    ensures Transforms(a, t + [Insert(|b| - 1, Last(b))], b)
  {
    var e := Insert(|b| - 1, Last(b));
    assert Apply(Init(b), e) == b;
    OneStep(Init(b), e);
    TransformsConcat(a, t, Init(b), [e], b);
  }

  lemma SubstituteAfter(a: string, t: seq<Edit>, b: string)
    requires a != "" && b != "" && Transforms(Init(a), t, Init(b))
    ensures Last(a) == Last(b) ==> Transforms(a, t, b)
    ensures Transforms(a, t + [Substitute(|b| - 1, Last(b))], b)
  {
    hide Transforms;
    TransformsUnder(Init(a), t, Init(b), Last(a));
    assert a == Init(a) + [Last(a)] && b == Init(b) + [Last(b)];
    var c, e := Init(b) + [Last(a)], Substitute(|b| - 1, Last(b));
    assert Apply(c, e) == b;
    OneStep(c, e);
    TransformsConcat(a, t, c, [e], b);
  }

  lemma {:induction false} ShortestScript(a: string, b: string) returns (s: seq<Edit>)
    ensures Transforms(a, s, b) && |s| == Distance(a, b)
    decreases |a| + |b|
  {
    hide Transforms, Last, Init;
    if a == "" && b == "" {
      s := [];
      NoEdits(a);
    } else if a != "" && (b == "" || Distance(a, b) == Distance(Init(a), b) + 1) {
      InitShorter(a);
      var t := ShortestScript(Init(a), b);
      DeleteFirst(a, t, b);
      s := [Delete(|a| - 1)] + t;
    } else if a == "" || Distance(a, b) == Distance(a, Init(b)) + 1 {
      InitShorter(b);
      var t := ShortestScript(a, Init(b));
      InsertAfter(a, t, b);
      s := t + [Insert(|b| - 1, Last(b))];
    } else {
      InitShorter(a);
      InitShorter(b);
      var t := ShortestScript(Init(a), Init(b));
      SubstituteAfter(a, t, b);
      s := if Last(a) == Last(b) then t else t + [Substitute(|b| - 1, Last(b))];
    }
  }

  lemma InitShorter(s: string)
    requires s != ""
    ensures |Init(s)| == |s| - 1
  {
  }

  lemma NoEdits(s: string)
    ensures Transforms(s, [], s)
  {
  }

  /** The recurrence is the least length of an edit script. */
  lemma DistanceIsOptimal(a: string, b: string)
    ensures exists s :: Transforms(a, s, b) && |s| == Distance(a, b)
    ensures forall s | Transforms(a, s, b) :: Distance(a, b) <= |s|
  {
    var s := ShortestScript(a, b);
    forall s | Transforms(a, s, b)
      ensures Distance(a, b) <= |s|
    {
      NoShorterScript(a, s, b);
    }
  }

  /** One edit changes the distance to any text by at most one, up or down. */
  lemma EditMovesByOne(a: string, e: Edit, b: string)
    requires Applicable(a, e)
    ensures Distance(a, b) - 1 <= Distance(Apply(a, e), b) <= Distance(a, b) + 1
  {
    hide Apply, Applicable, Distance;
    OneEdit(a, e, b);
    OneStep(a, e);
    NoShorterScript(a, [e], Apply(a, e));
    DistanceSymmetric(a, Apply(a, e));
    TriangleInequality(Apply(a, e), a, b);
  }

  lemma TriangleInequality(a: string, b: string, c: string)
    ensures Distance(a, c) <= Distance(a, b) + Distance(b, c)
  {
    var s := ShortestScript(a, b);
    var t := ShortestScript(b, c);
    TransformsConcat(a, s, b, t, c);
    NoShorterScript(a, s + t, c);
  }

  // ---------- The table ----------

  /** Bytes of a character in UTF-8; the source measures an empty operand's
      partner in bytes. */
  function Utf8Length(c: char): nat {
    if c as int < 0x80 then 1
    else if c as int < 0x800 then 2
    else if c as int < 0x1_0000 then 3
    else 4
  }

  function ByteLength(s: string): (n: nat)
    ensures n >= |s|
  {
    if s == "" then 0 else ByteLength(Init(s)) + Utf8Length(Last(s))
  }

  /** The UTF-8 encoding (RFC 3629): a lead byte and continuation bytes of six bits each. */
  function Encode(c: char): seq<int> {
    var n := c as int;
    if n < 0x80 then [n]
    else if n < 0x800 then [0xC0 + n / 64, 0x80 + n % 64]
    else if n < 0x1_0000 then [0xE0 + n / 4096, 0x80 + n / 64 % 64, 0x80 + n % 64]
    else [0xF0 + n / 262144, 0x80 + n / 4096 % 64, 0x80 + n / 64 % 64, 0x80 + n % 64]
  }

  function EncodeAll(s: string): seq<int> {
    if s == "" then [] else EncodeAll(Init(s)) + Encode(Last(s))
  }

  /** How many bytes a lead byte announces. */
  function Announced(lead: int): nat {
    if lead < 0x80 then 1 else if lead < 0xE0 then 2 else if lead < 0xF0 then 3 else 4
  }

  /** The character number a lead byte and its continuation bytes spell. */
  function Decode(bytes: seq<int>): int {
    if |bytes| == 1 then bytes[0]
    else if |bytes| == 2 then (bytes[0] - 0xC0) * 64 + (bytes[1] - 0x80)
    else if |bytes| == 3 then ((bytes[0] - 0xE0) * 64 + (bytes[1] - 0x80)) * 64 + (bytes[2] - 0x80)
    else if |bytes| == 4 then
      (((bytes[0] - 0xF0) * 64 + (bytes[1] - 0x80)) * 64 + (bytes[2] - 0x80)) * 64 + (bytes[3] - 0x80)
    else -1
  }

  lemma SixBits(n: nat)
    ensures n / 64 / 64 == n / 4096 && n / 4096 / 64 == n / 262144
  {
  }

  /** The encoding can be read back, and its lead byte announces its length. So the length
      measured is that of the encoding. */
  lemma Utf8LengthIsEncoded(c: char)
    ensures |Encode(c)| == Utf8Length(c) == Announced(Encode(c)[0])
    ensures Decode(Encode(c)) == c as int
  {
    var n := c as int;
    SixBits(n);
    assert n < 0x11_0000;
    assert n == n / 64 * 64 + n % 64;
    assert n / 64 == n / 4096 * 64 + n / 64 % 64;
    assert n / 4096 == n / 262144 * 64 + n / 4096 % 64;
  }

  lemma {:induction false} ByteLengthIsEncoded(s: string)
    ensures ByteLength(s) == |EncodeAll(s)|
  {
    if s != "" {
      ByteLengthIsEncoded(Init(s));
      Utf8LengthIsEncoded(Last(s));
      hide Encode, Utf8Length;
    }
  }

  predicate IsAscii(s: string) {
    forall i | 0 <= i < |s| :: s[i] as int < 0x80
  }

  /** What the table code returns. */
  function Levenshtein(a: string, b: string): nat {
    if a == "" then ByteLength(b)
    else if b == "" then ByteLength(a)
    else Distance(a, b)
  }

  lemma DistanceRow(a: string, b: string, i: nat, j: nat)
    requires 0 < i <= |a| && 0 < j <= |b|
    ensures Distance(a[..i], b[..j]) ==
            if a[i - 1] == b[j - 1] then Distance(a[..i - 1], b[..j - 1])
            else 1 + MinOf3(Distance(a[..i - 1], b[..j]), Distance(a[..i], b[..j - 1]),
                            Distance(a[..i - 1], b[..j - 1]))
  {
    assert Init(a[..i]) == a[..i - 1] && Init(b[..j]) == b[..j - 1];
    if a[i - 1] == b[j - 1] {
      EqualLast(a[..i], b[..j]);
    }
  }

  ghost predicate IsRow(row: seq<nat>, a: string, b: string, n: nat) {
    |row| >= n && n <= |b| + 1 && forall k | 0 <= k < n :: row[k] == Distance(a, b[..k])
  }

  lemma FirstRow(row: seq<nat>, b: string)
    requires |row| == |b| + 1 && forall j | 0 <= j < |row| :: row[j] == j
    ensures IsRow(row, "", b, |b| + 1)
  {
  }

  /** Row `i` of the table from row `i - 1`. */
  method NextRow(a: string, b: string, i: nat, prev: array<nat>) returns (curr: array<nat>)
    requires 0 < i <= |a| && prev.Length == |b| + 1 && IsRow(prev[..], a[..i - 1], b, |b| + 1)
    ensures fresh(curr) && curr.Length == |b| + 1 && IsRow(curr[..], a[..i], b, |b| + 1)
  {
    hide Distance;
    curr := new nat[|b| + 1];
    curr[0] := i;
    FirstColumn(a[..i], b);
    for j := 1 to |b| + 1
      invariant IsRow(curr[..], a[..i], b, j)
    {
      DistanceRow(a, b, i, j);
      if a[i - 1] == b[j - 1] {
        curr[j] := prev[j - 1];
      } else {
        curr[j] := 1 + MinOf3(prev[j], curr[j - 1], prev[j - 1]);
      }
    }
  }

  lemma FirstColumn(a: string, b: string)
    ensures Distance(a, b[..0]) == |a|
  {
  }

  method ComputeLevenshtein(a: string, b: string) returns (d: nat)
    ensures d == Levenshtein(a, b)
  {
    hide Distance;
    if |a| == 0 {
      return ByteLength(b);
    }
    if |b| == 0 {
      return ByteLength(a);
    }
    var prev := new nat[|b| + 1](j => j);
    FirstRow(prev[..], b);
    assert a[..0] == "";
    for i := 1 to |a| + 1
      invariant prev.Length == |b| + 1 && IsRow(prev[..], a[..i - 1], b, |b| + 1)
    {
      prev := NextRow(a, b, i, prev);
    }
    assert a[..|a|] == a && b[..|b|] == b;
    return prev[|b|];
  }

  lemma {:induction false} AsciiByteLength(s: string)
    ensures ByteLength(s) == |s| <==> IsAscii(s)
  {
    if s != "" {
      AsciiByteLength(Init(s));
      assert s == Init(s) + [Last(s)];
      assert IsAscii(s) <==> IsAscii(Init(s)) && Last(s) as int < 0x80;
    }
  }

  /** The code returns the edit distance exactly when no empty operand meets a
      non-ASCII one. */
  lemma LevenshteinIsDistance(a: string, b: string)
    ensures Levenshtein(a, b) == Distance(a, b) <==> (a == "" ==> IsAscii(b)) && (b == "" ==> IsAscii(a))
  {
    AsciiByteLength(a);
    AsciiByteLength(b);
    DistanceSymmetric(a, b);
  }

  lemma NonAsciiCounterexample()
    ensures Levenshtein("", "\U{e9}") == 2 && Distance("", "\U{e9}") == 1
  {
    assert Init("\U{e9}") == "";
  }

  // ---------- Suggestions ----------

  const KNOWN_COMMANDS: seq<string> := [
    "exit", "quit", "help", "use", "show vaults", "show memories", "show stats",
    "show contradictions", "search", "get", "forget"
  ]

  function FirstWord(cmd: string): string {
    if cmd == "" || cmd[0] == ' ' then "" else [cmd[0]] + FirstWord(cmd[1..])
  }

  /** Position of the first command nearest to the input, if one is within 2. */
  ghost predicate IsSuggestion(input: string, commands: seq<string>, k: nat) {
    && k < |commands|
    && Levenshtein(input, FirstWord(commands[k])) <= 2
    && (forall i | 0 <= i < k ::
        Levenshtein(input, FirstWord(commands[k])) < Levenshtein(input, FirstWord(commands[i])))
    && (forall i | k < i < |commands| ::
        Levenshtein(input, FirstWord(commands[k])) <= Levenshtein(input, FirstWord(commands[i])))
  }

  method Suggest(input: string, commands: seq<string>) returns (best: string)
    ensures (exists k: nat :: IsSuggestion(input, commands, k) && best == commands[k]) ||
            (best == "" && forall i | 0 <= i < |commands| :: Levenshtein(input, FirstWord(commands[i])) > 2)
  {
    hide Levenshtein;
    best := "";
    var bestDist := 3;
    ghost var k := -1;
    for i := 0 to |commands|
      invariant -1 <= k < i && bestDist <= 3
      invariant k == -1 <==> bestDist == 3
      invariant k == -1 ==> best == "" && forall m | 0 <= m < i :: Levenshtein(input, FirstWord(commands[m])) > 2
      invariant k >= 0 ==> best == commands[k] && bestDist == Levenshtein(input, FirstWord(commands[k]))
      invariant k >= 0 ==> forall m | 0 <= m < k :: bestDist < Levenshtein(input, FirstWord(commands[m]))
      invariant k >= 0 ==> forall m | k < m < i :: bestDist <= Levenshtein(input, FirstWord(commands[m]))
    {
      var d := ComputeLevenshtein(input, FirstWord(commands[i]));
      if d < bestDist {
        bestDist := d;
        best := commands[i];
        k := i;
      }
    }
    assert k >= 0 ==> IsSuggestion(input, commands, k);
  }

  lemma {:induction false} FirstWordIsAscii(cmd: string)
    requires IsAscii(cmd)
    ensures IsAscii(FirstWord(cmd))
    ensures cmd != "" && cmd[0] != ' ' ==> FirstWord(cmd) != ""
  {
    if cmd != "" && cmd[0] != ' ' {
      FirstWordIsAscii(cmd[1..]);
    }
  }

  lemma KnownCommandsAreAscii(i: nat)
    requires i < |KNOWN_COMMANDS|
    ensures IsAscii(KNOWN_COMMANDS[i]) && KNOWN_COMMANDS[i] != "" && KNOWN_COMMANDS[i][0] != ' '
  {
  }

  /** For every input, ASCII or not, the suggestion minimises true edit distance. */
  lemma KnownCommandDistance(input: string, i: nat)
    requires i < |KNOWN_COMMANDS|
    ensures Levenshtein(input, FirstWord(KNOWN_COMMANDS[i])) == Distance(input, FirstWord(KNOWN_COMMANDS[i]))
  {
    hide KNOWN_COMMANDS;
    KnownCommandsAreAscii(i);
    FirstWordIsAscii(KNOWN_COMMANDS[i]);
    LevenshteinIsDistance(input, FirstWord(KNOWN_COMMANDS[i]));
  }

  /** A known command whose first word is at least edit distance from the input, when
      that is at most 2. */
  ghost predicate IsNearest(input: string, k: nat) {
    && k < |KNOWN_COMMANDS|
    && Distance(input, FirstWord(KNOWN_COMMANDS[k])) <= 2
    && forall i | 0 <= i < |KNOWN_COMMANDS| ::
         Distance(input, FirstWord(KNOWN_COMMANDS[k])) <= Distance(input, FirstWord(KNOWN_COMMANDS[i]))
  }

  method SuggestCommand(input: string) returns (best: string)
    ensures (exists k: nat :: IsNearest(input, k) && best == KNOWN_COMMANDS[k]) ||
            (best == "" && forall i | 0 <= i < |KNOWN_COMMANDS| :: Distance(input, FirstWord(KNOWN_COMMANDS[i])) > 2)
  {
    hide KNOWN_COMMANDS, Levenshtein, Distance;
    best := Suggest(input, KNOWN_COMMANDS);
    forall i | 0 <= i < |KNOWN_COMMANDS|
      ensures Levenshtein(input, FirstWord(KNOWN_COMMANDS[i])) == Distance(input, FirstWord(KNOWN_COMMANDS[i]))
    {
      KnownCommandDistance(input, i);
    }
    assert forall k: nat | IsSuggestion(input, KNOWN_COMMANDS, k) :: IsNearest(input, k);
  }
}
