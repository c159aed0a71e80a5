/** The env file: the line parser of the loader, the line matchers of the upsert, and
    the upsert itself. */
module EnvFile {

  import opened Common

  // ---------- Strings ----------

  predicate IsSpace(c: char) {
    var n := c as int;
    || 0x09 <= n <= 0x0D || n == 0x20 || n == 0x85 || n == 0xA0 || n == 0x1680
    || 0x2000 <= n <= 0x200A || n == 0x2028 || n == 0x2029 || n == 0x202F || n == 0x205F || n == 0x3000
  }

  function TrimLeft(s: string): (r: string)
    ensures |r| <= |s| && (r == "" || !IsSpace(r[0]))
  {
    if s != "" && IsSpace(s[0]) then TrimLeft(s[1..]) else s
  }

  function TrimRight(s: string): (r: string)
    ensures r <= s && (r == "" || !IsSpace(r[|r| - 1]))
  {
    if s != "" && IsSpace(s[|s| - 1]) then TrimRight(s[..|s| - 1]) else s
  }

  function TrimSpace(s: string): (r: string)
    ensures r == "" || (!IsSpace(r[0]) && !IsSpace(r[|r| - 1]))
  {
    TrimRight(TrimLeft(s))
  }

  predicate Tight(s: string) {
    s == "" || (!IsSpace(s[0]) && !IsSpace(s[|s| - 1]))
  }

  lemma TightIsTrimmed(s: string)
    ensures TrimSpace(s) == s <==> Tight(s)
  {
  }

  function TrimPrefix(s: string, p: string): string {
    if p <= s then s[|p|..] else s
  }

  /** Position of the first `c`, or -1. */
  function IndexOf(s: string, c: char): (i: int)
    ensures -1 <= i < |s|
    ensures i >= 0 ==> s[i] == c && c !in s[..i]
    ensures i < 0 ==> c !in s
  {
    if s == "" then -1
    else if s[0] == c then 0
    else
      var i := IndexOf(s[1..], c);
      assert s == [s[0]] + s[1..];
      assert i >= 0 ==> s[..i + 1] == [s[0]] + s[1..][..i];
      if i < 0 then -1 else i + 1
  }

  lemma IndexOfUnique(s: string, c: char, i: nat)
    requires i < |s| && s[i] == c && c !in s[..i]
    ensures IndexOf(s, c) == i
  {
  }

  // ---------- Lines ----------

  const EXPORT := "export "
  const HASH := "#"
  const NUL := 0 as char
  const CR := '\r'
  const SUPERSEDED := "# superseded by muninn init: "

  /** The key and raw value of an assignment, after an optional "export ". */
  function Assignment(t: string): Option<(string, string)> {
    var u := TrimPrefix(t, EXPORT);
    var i := IndexOf(u, '=');
    if i < 0 then None else Some((TrimSpace(u[..i]), u[i + 1..]))
  }

  predicate Assigns(t: string, key: string) {
    Assignment(t).Some? && Assignment(t).value.0 == key
  }

  /** The line is, or would activate to, an assignment of `key`. */
  predicate Matches(line: string, key: string) {
    Assigns(TrimSpace(TrimPrefix(TrimSpace(line), HASH)), key)
  }

  /** The line is an uncommented assignment of `key`. */
  predicate MatchesActive(line: string, key: string) {
    !(HASH <= TrimSpace(line)) && Assigns(TrimSpace(line), key)
  }

  predicate Quoted(v: string) {
    |v| >= 2 && (v[0] == '"' || v[0] == '\'') && v[|v| - 1] == v[0]
  }

  function Unquote(v: string): string {
    if Quoted(v) then v[1..|v| - 1] else v
  }

  /** What the loader takes from a line: a MUNINN key and its value. */
  function LoadLine(line: string): Option<(string, string)> {
    var t := TrimSpace(line);
    if t == "" || HASH <= t then None
    else
      match Assignment(t)
      case None => None
      case Some((key, raw)) =>
        var value := Unquote(TrimSpace(raw));
        if key == "" || ' ' in key || '\t' in key then None
        else if !("MUNINN" <= key) then None
        else if NUL in key || NUL in value then None
        else Some((key, value))
  }

  predicate Loads(line: string, key: string) {
    LoadLine(line).Some? && LoadLine(line).value.0 == key
  }

  /** The value the file gives a key: its first active line wins. */
  function Lookup(lines: seq<string>, key: string): Option<string> {
    if lines == [] then None
    else if Loads(lines[0], key) then Some(LoadLine(lines[0]).value.1)
    else Lookup(lines[1..], key)
  }

  // ---------- The upsert on lines ----------

  function NewLine(line: string, key: string, value: string): string {
    if line != "" && line[|line| - 1] == CR then key + "=" + value + [CR] else key + "=" + value
  }

  /** Replace the first matching line; comment out later active ones. */
  function Replace(lines: seq<string>, key: string, value: string, found: bool): (r: seq<string>)
    ensures |r| == |lines|
  {
    if lines == [] then []
    else if !found && Matches(lines[0], key) then
      [NewLine(lines[0], key, value)] + Replace(lines[1..], key, value, true)
    else if found && MatchesActive(lines[0], key) then
      [SUPERSEDED + lines[0]] + Replace(lines[1..], key, value, found)
    else
      [lines[0]] + Replace(lines[1..], key, value, found)
  }

  predicate Found(lines: seq<string>, key: string) {
    lines != [] && (Matches(lines[0], key) || Found(lines[1..], key))
  }

  type Pairs = seq<(string, string)>

  function ReplaceAll(lines: seq<string>, pairs: Pairs): seq<string> {
    if pairs == [] then lines
    else
      var p := pairs[|pairs| - 1];
      Replace(ReplaceAll(lines, pairs[..|pairs| - 1]), p.0, p.1, false)
  }

  /** The pairs whose key no line matched, in order. */
  function Missing(lines: seq<string>, pairs: Pairs): Pairs {
    if pairs == [] then []
    else
      var init, p := pairs[..|pairs| - 1], pairs[|pairs| - 1];
      if Found(ReplaceAll(lines, init), p.0) then Missing(lines, init) else Missing(lines, init) + [p]
  }

  function AsLines(pairs: Pairs): seq<string> {
    seq(|pairs|, i requires 0 <= i < |pairs| => pairs[i].0 + "=" + pairs[i].1)
  }

  function DropBlankEnd(lines: seq<string>): (r: seq<string>)
    ensures r <= lines && (r == [] || r[|r| - 1] != "")
  {
    if lines != [] && lines[|lines| - 1] == "" then DropBlankEnd(lines[..|lines| - 1]) else lines
  }

  function UpsertLines(lines: seq<string>, pairs: Pairs): seq<string> {
    var missing := Missing(lines, pairs);
    if missing == [] then ReplaceAll(lines, pairs)
    else DropBlankEnd(ReplaceAll(lines, pairs)) + AsLines(missing) + [""]
  }

  // ---------- The upsert on text ----------

  function Split(text: string): (lines: seq<string>)
    ensures lines != []
  {
    var i := IndexOf(text, '\n');
    if i < 0 then [text] else [text[..i]] + Split(text[i + 1..])
  }

  function Join(lines: seq<string>): string {
    if lines == [] then ""
    else if |lines| == 1 then lines[0]
    else lines[0] + "\n" + Join(lines[1..])
  }

  function TrimNewlines(s: string): string {
    if s != "" && s[|s| - 1] == '\n' then TrimNewlines(s[..|s| - 1]) else s
  }

  /** Missing keys are appended after exactly one newline. */
  function UpsertText(text: string, pairs: Pairs): string {
    var lines := Split(text);
    var out, missing := Join(ReplaceAll(lines, pairs)), Missing(lines, pairs);
    if missing == [] then out
    else
      var kept := TrimNewlines(out);
      (if kept == "" then "" else kept + "\n") + Join(AsLines(missing)) + "\n"
  }

  // ---------- The loops ----------

  lemma ReplaceStep(lines: seq<string>, i: nat, key: string, value: string, found: bool)
    requires i < |lines|
    ensures Replace(lines[i..], key, value, found) ==
            if !found && Matches(lines[i], key) then
              [NewLine(lines[i], key, value)] + Replace(lines[i + 1..], key, value, true)
            else if found && MatchesActive(lines[i], key) then
              [SUPERSEDED + lines[i]] + Replace(lines[i + 1..], key, value, found)
            else
              [lines[i]] + Replace(lines[i + 1..], key, value, found)
    ensures Found(lines[i..], key) <==> Matches(lines[i], key) || Found(lines[i + 1..], key)
  {
  }

  lemma UpdateAfter(done: seq<string>, rest: seq<string>, line: string)
    requires rest != []
    ensures (done + rest)[|done| := line] == (done + [line]) + rest[1..]
    ensures (done + rest)[|done|] == rest[0]
    ensures done + rest == (done + [rest[0]]) + rest[1..]
  {
  }

  method ReplaceLoop(lines: seq<string>, key: string, value: string) returns (r: seq<string>, found: bool)
    ensures r == Replace(lines, key, value, false) && found == Found(lines, key)
  {
    hide Matches, MatchesActive, NewLine, Replace, Found;
    r, found := lines, false;
    ghost var done: seq<string> := [];
    assert lines[0..] == lines;
    for i := 0 to |lines|
      invariant |done| == i && r == done + lines[i..]
      invariant done + Replace(lines[i..], key, value, found) == Replace(lines, key, value, false)
      invariant Found(lines, key) <==> found || Found(lines[i..], key)
    {
      ReplaceStep(lines, i, key, value, found);
      assert lines[i..][1..] == lines[i + 1..];
      var line := r[i];
      if !found && Matches(line, key) {
        UpdateAfter(done, lines[i..], NewLine(line, key, value));
        r := r[i := NewLine(line, key, value)];
        found := true;
      } else if found && MatchesActive(line, key) {
        UpdateAfter(done, lines[i..], SUPERSEDED + line);
        r := r[i := SUPERSEDED + line];
      } else {
        UpdateAfter(done, lines[i..], line);
      }
      done := done + [r[i]];
    }
    NoneLeft(key, value, found);
    assert lines[|lines|..] == [];
  }

  lemma NoneLeft(key: string, value: string, found: bool)
    ensures Replace([], key, value, found) == [] && !Found([], key)
  {
  }

  method UpsertVars(text: string, pairs: Pairs) returns (out: string)
    ensures out == UpsertText(text, pairs)
  {
    var lines := Split(text);
    ghost var start := lines;
    var missing: seq<string> := [];
    for i := 0 to |pairs|
      invariant lines == ReplaceAll(start, pairs[..i]) && missing == AsLines(Missing(start, pairs[..i]))
    {
      assert pairs[..i + 1][..i] == pairs[..i];
      var key, value := pairs[i].0, pairs[i].1;
      var found;
      lines, found := ReplaceLoop(lines, key, value);
      if !found {
        missing := missing + [key + "=" + value];
      }
    }
    assert pairs[..|pairs|] == pairs;
    out := Join(lines);
    if |missing| > 0 {
      out := TrimNewlines(out);
      if out != "" {
        out := out + "\n";
      }
      out := out + Join(missing) + "\n";
    }
  }

  /** The environment after loading: what the shell set stays, the first active
      line of each other key is added. */
  method LoadEnv(lines: seq<string>, env: map<string, string>) returns (r: map<string, string>)
    ensures forall k | k in env :: k in r && r[k] == env[k]
    ensures forall k | k !in env :: (k in r <==> Lookup(lines, k).Some?) && (k in r ==> Some(r[k]) == Lookup(lines, k))
  {
    hide LoadLine;
    r := env;
    for i := 0 to |lines|
      invariant forall k | k in env :: k in r && r[k] == env[k]
      invariant forall k | k !in env && k in r :: Lookup(lines, k) == Some(r[k])
      invariant forall k | k !in env && k !in r :: Lookup(lines, k) == Lookup(lines[i..], k)
    {
      assert lines[i..][1..] == lines[i + 1..];
      var entry := LoadLine(lines[i]);
      if entry.Some? && entry.value.0 !in r {
        r := r[entry.value.0 := entry.value.1];
      }
    }
    assert lines[|lines|..] == [];
  }
}
