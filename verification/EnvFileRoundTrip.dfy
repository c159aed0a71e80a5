/** The round trip for a whole upsert, on lines and on the text of the file. */
module EnvFileRoundTrip {

  import opened Common
  import opened EnvFile
  import opened EnvFileLaws

  // ---------- All pairs on the lines in place ----------

  lemma {:induction false} ReplaceUnfound(lines: seq<string>, k: string, v: string)
    requires !Found(lines, k)
    ensures Replace(lines, k, v, false) == lines
  {
    if lines != [] {
      ReplaceUnfound(lines[1..], k, v);
    }
  }

  /** Each pair ends up either settled in place or missing from the lines. */
  lemma {:induction false} PairsDone(lines: seq<string>, pairs: Pairs, p: (string, string))
    requires ValidPairs(pairs) && p in pairs
    ensures if p in Missing(lines, pairs) then !Found(ReplaceAll(lines, pairs), p.0)
            else Settled(ReplaceAll(lines, pairs), p.0, p.1)
  {
    hide ValidKey, ValidValue, Settled, Found;
    var init, q := pairs[..|pairs| - 1], pairs[|pairs| - 1];
    var r := ReplaceAll(lines, init);
    assert pairs == init + [q];
    MissingAreInit(lines, init);
    if p == q {
      assert p !in init;
      if Found(r, q.0) {
        ReplaceSettles(r, q.0, q.1);
      } else {
        ReplaceUnfound(r, q.0, q.1);
      }
    } else {
      assert p in init;
      PairsDone(lines, init, p);
      assert ValidKey(p.0);
      ReplaceOther(r, q.0, q.1, false, p.0, p.1);
    }
  }

  lemma {:induction false} MissingAreInit(lines: seq<string>, pairs: Pairs)
    ensures forall p | p in Missing(lines, pairs) :: p in pairs
  {
    if pairs != [] {
      MissingAreInit(lines, pairs[..|pairs| - 1]);
      assert pairs == pairs[..|pairs| - 1] + [pairs[|pairs| - 1]];
    }
  }

  lemma {:induction false} MissingIsValid(lines: seq<string>, pairs: Pairs)
    requires ValidPairs(pairs)
    ensures ValidPairs(Missing(lines, pairs))
  {
    hide ValidKey, ValidValue, Found;
    if pairs != [] {
      var init, q := pairs[..|pairs| - 1], pairs[|pairs| - 1];
      MissingIsValid(lines, init);
      MissingAreInit(lines, init);
      var m := Missing(lines, init);
      forall i | 0 <= i < |m|
        ensures m[i].0 != q.0
      {
        assert m[i] in m;
      }
    }
  }

  lemma {:induction false} ReplaceAllKeepsOthers(lines: seq<string>, pairs: Pairs, key: string)
    requires ValidPairs(pairs) && forall p | p in pairs :: p.0 != key
    ensures Lookup(ReplaceAll(lines, pairs), key) == Lookup(lines, key)
  {
    hide ValidKey, ValidValue, LoadLine;
    if pairs != [] {
      var init, q := pairs[..|pairs| - 1], pairs[|pairs| - 1];
      ReplaceAllKeepsOthers(lines, init, key);
      assert q in pairs;
      ReplaceKeepsOthers(ReplaceAll(lines, init), q.0, q.1, false, key);
    }
  }

  // ---------- Appending the missing keys ----------

  lemma BlankLine(key: string)
    ensures !Matches("", key) && !MatchesActive("", key) && LoadLine("").None?
  {
  }

  ghost predicate Blank(lines: seq<string>) {
    forall i | 0 <= i < |lines| :: lines[i] == ""
  }

  lemma {:induction false} DropBlankSplits(lines: seq<string>) returns (blank: seq<string>)
    ensures Blank(blank) && lines == DropBlankEnd(lines) + blank
  {
    if lines != [] && lines[|lines| - 1] == "" {
      blank := DropBlankSplits(lines[..|lines| - 1]);
      blank := blank + [""];
    } else {
      blank := [];
    }
  }

  /** A blank end carries nothing. */
  lemma {:induction false} BlankEnd(lines: seq<string>, blank: seq<string>, k: string, v: string)
    requires Blank(blank)
    ensures Settled(lines + blank, k, v) ==> Settled(lines, k, v)
    ensures Found(lines, k) ==> Found(lines + blank, k)
    ensures Lookup(lines + blank, k) == Lookup(lines, k)
    decreases |lines|, |blank|
  {
    hide Matches, MatchesActive, LoadLine, IsFresh;
    if lines == [] {
      assert lines + blank == blank;
      if blank != [] {
        BlankLine(k);
        assert [] + blank[1..] == blank[1..];
        BlankEnd([], blank[1..], k, v);
      }
    } else {
      assert (lines + blank)[1..] == lines[1..] + blank;
      BlankEnd(lines[1..], blank, k, v);
      if NoActive(lines[1..] + blank, k) {
        assert forall i | 0 <= i < |lines[1..]| :: (lines[1..] + blank)[i] == lines[1..][i];
      }
    }
  }

  lemma {:induction false} SettledAppend(a: seq<string>, b: seq<string>, k: string, v: string)
    ensures Settled(a, k, v) && NoActive(b, k) ==> Settled(a + b, k, v)
    ensures !Found(a, k) && Settled(b, k, v) ==> Settled(a + b, k, v)
  {
    hide Matches, MatchesActive, IsFresh;
    if a == [] {
      assert a + b == b;
    } else {
      assert (a + b)[1..] == a[1..] + b;
      SettledAppend(a[1..], b, k, v);
    }
  }

  /** The appended block: one fresh line per missing pair and a final blank. */
  function Block(pairs: Pairs): seq<string> {
    AsLines(pairs) + [""]
  }

  lemma BlockStep(pairs: Pairs)
    requires pairs != []
    ensures Block(pairs) == [pairs[0].0 + "=" + pairs[0].1] + Block(pairs[1..])
    ensures IsFresh(Block(pairs)[0], pairs[0].0, pairs[0].1)
  {
  }

  lemma {:induction false} BlockOthers(pairs: Pairs, k: string)
    requires ValidPairs(pairs) && forall p | p in pairs :: p.0 != k
    ensures NoActive(Block(pairs), k) && Lookup(Block(pairs), k).None?
  {
    hide Matches, MatchesActive, LoadLine, ValidKey, ValidValue, IsFresh;
    BlankLine(k);
    if pairs != [] {
      BlockStep(pairs);
      assert pairs[0] in pairs && forall p | p in pairs[1..] :: p in pairs;
      BlockOthers(pairs[1..], k);
      FreshLine(Block(pairs)[0], pairs[0].0, pairs[0].1, k);
      assert Block(pairs)[1..] == Block(pairs[1..]);
    }
  }

  lemma {:induction false} BlockSettles(pairs: Pairs, p: (string, string))
    requires ValidPairs(pairs) && p in pairs
    ensures Settled(Block(pairs), p.0, p.1)
  {
    hide Matches, MatchesActive, LoadLine, ValidKey, ValidValue, IsFresh;
    var q, tail := pairs[0], pairs[1..];
    BlockStep(pairs);
    assert pairs[0] in pairs && forall p | p in tail :: p in pairs;
    assert forall r | r in tail :: r.0 != q.0;
    FreshLine(Block(pairs)[0], q.0, q.1, p.0);
    assert Block(pairs)[1..] == Block(tail);
    if p.0 == q.0 {
      assert p == q;
      BlockOthers(tail, q.0);
    } else {
      assert p in tail;
      BlockSettles(tail, p);
    }
  }

  // ---------- The whole upsert on lines ----------

  lemma UpsertSettles(lines: seq<string>, pairs: Pairs, p: (string, string))
    requires ValidPairs(pairs) && p in pairs
    ensures Settled(UpsertLines(lines, pairs), p.0, p.1)
  {
    hide Settled, Found, Matches, ValidKey, ValidValue, Missing, ReplaceAll;
    var r, m := ReplaceAll(lines, pairs), Missing(lines, pairs);
    PairsDone(lines, pairs, p);
    if m != [] {
      MissingIsValid(lines, pairs);
      MissingAreInit(lines, pairs);
      var blank := DropBlankSplits(r);
      var kept := DropBlankEnd(r);
      BlankEnd(kept, blank, p.0, p.1);
      SettledAppend(kept, Block(m), p.0, p.1);
      assert kept + Block(m) == kept + AsLines(m) + [""];
      if p in m {
        BlockSettles(m, p);
      } else {
        assert forall q | q in m :: q.0 != p.0;
        BlockOthers(m, p.0);
      }
    }
  }

  lemma {:induction false} SettledLoads(lines: seq<string>, k: string, v: string)
    requires ValidKey(k) && ValidValue(v) && Settled(lines, k, v)
    ensures Lookup(lines, k) == Some(v)
  {
    hide Matches, MatchesActive, LoadLine, ValidKey, ValidValue, IsFresh;
    ActiveMatches(lines[0], k);
    if Matches(lines[0], k) {
      FreshLine(lines[0], k, v, k);
    } else {
      SettledLoads(lines[1..], k, v);
    }
  }

  lemma {:induction false} LookupAppend(a: seq<string>, b: seq<string>, k: string)
    ensures Lookup(a + b, k) == if Lookup(a, k).Some? then Lookup(a, k) else Lookup(b, k)
  {
    hide LoadLine;
    if a == [] {
      assert a + b == b;
    } else {
      assert (a + b)[1..] == a[1..] + b;
      LookupAppend(a[1..], b, k);
    }
  }

  lemma UpsertKeepsOthers(lines: seq<string>, pairs: Pairs, key: string)
    requires ValidPairs(pairs) && forall p | p in pairs :: p.0 != key
    ensures Lookup(UpsertLines(lines, pairs), key) == Lookup(lines, key)
  {
    hide LoadLine, ValidKey, ValidValue, Missing, ReplaceAll;
    ReplaceAllKeepsOthers(lines, pairs, key);
    var r, m := ReplaceAll(lines, pairs), Missing(lines, pairs);
    if m != [] {
      MissingIsValid(lines, pairs);
      MissingAreInit(lines, pairs);
      var blank := DropBlankSplits(r);
      BlankEnd(DropBlankEnd(r), blank, key, "");
      LookupAppend(DropBlankEnd(r), Block(m), key);
      assert DropBlankEnd(r) + Block(m) == DropBlankEnd(r) + AsLines(m) + [""];
      BlockOthers(m, key);
    }
  }

  lemma {:induction false} SettledPairsStay(lines: seq<string>, pairs: Pairs)
    requires ValidPairs(pairs) && forall p | p in pairs :: Settled(lines, p.0, p.1)
    ensures ReplaceAll(lines, pairs) == lines && Missing(lines, pairs) == []
  {
    hide ValidKey, ValidValue, Settled, Found, Replace;
    if pairs != [] {
      SettledPairsStay(lines, pairs[..|pairs| - 1]);
      assert pairs[|pairs| - 1] in pairs;
      SettledIsFixpoint(lines, pairs[|pairs| - 1].0, pairs[|pairs| - 1].1);
    }
  }

  // ---------- The text of the file ----------

  predicate OneLine(s: string) {
    '\n' !in s
  }

  ghost predicate OneLiners(lines: seq<string>) {
    forall i | 0 <= i < |lines| :: OneLine(lines[i])
  }

  lemma {:induction false} SplitOneLiners(text: string)
    ensures OneLiners(Split(text)) && Join(Split(text)) == text
    decreases |text|
  {
    var i := IndexOf(text, '\n');
    if i >= 0 {
      SplitOneLiners(text[i + 1..]);
      assert text == text[..i] + "\n" + text[i + 1..];
      var rest := Split(text[i + 1..]);
      assert ([text[..i]] + rest)[1..] == rest;
    }
  }

  lemma {:induction false} SplitJoin(lines: seq<string>)
    requires OneLiners(lines) && lines != []
    ensures Split(Join(lines)) == lines
  {
    if |lines| == 1 {
      assert OneLine(lines[0]);
    } else {
      var head, rest := lines[0], Join(lines[1..]);
      var text := head + "\n" + rest;
      assert text[..|head|] == head && text[|head|] == '\n' && text[|head| + 1..] == rest;
      assert OneLine(head);
      IndexOfUnique(text, '\n', |head|);
      assert forall i | 0 <= i < |lines| - 1 :: lines[1..][i] == lines[i + 1];
      SplitJoin(lines[1..]);
    }
  }

  lemma {:induction false} ReplaceOneLiners(lines: seq<string>, k: string, v: string, found: bool)
    requires OneLiners(lines) && ValidKey(k) && ValidValue(v)
    ensures OneLiners(Replace(lines, k, v, found))
  {
    hide Matches, MatchesActive;
    if lines != [] {
      assert OneLine(lines[0]);
      assert OneLine(k + "=" + v) by {
        assert forall i | 0 <= i < |k| :: k[i] != '\n';
      }
      assert OneLine(SUPERSEDED + lines[0]) by {
        assert OneLine(SUPERSEDED);
      }
      assert forall i | 0 <= i < |lines| - 1 :: lines[1..][i] == lines[i + 1];
      ReplaceOneLiners(lines[1..], k, v, found || Matches(lines[0], k));
    }
  }

  lemma {:induction false} ReplaceAllOneLiners(lines: seq<string>, pairs: Pairs)
    requires OneLiners(lines) && ValidPairs(pairs)
    ensures OneLiners(ReplaceAll(lines, pairs)) && |ReplaceAll(lines, pairs)| == |lines|
  {
    hide ValidKey, ValidValue, OneLine;
    if pairs != [] {
      ReplaceAllOneLiners(lines, pairs[..|pairs| - 1]);
      ReplaceOneLiners(ReplaceAll(lines, pairs[..|pairs| - 1]), pairs[|pairs| - 1].0, pairs[|pairs| - 1].1, false);
    }
  }

  lemma {:induction false} JoinAppend(a: seq<string>, b: seq<string>)
    requires a != [] && b != []
    ensures Join(a + b) == Join(a) + "\n" + Join(b)
  {
    if |a| == 1 {
      assert (a + b)[1..] == b;
    } else {
      assert (a + b)[1..] == a[1..] + b;
      JoinAppend(a[1..], b);
      assert a[0] + "\n" + (Join(a[1..]) + "\n" + Join(b)) == a[0] + "\n" + Join(a[1..]) + "\n" + Join(b);
    }
  }

  /** Trimming final newlines of the text drops final blank lines. */
  lemma {:induction false} TrimDropsBlanks(lines: seq<string>)
    requires OneLiners(lines) && lines != []
    ensures TrimNewlines(Join(lines)) == Join(DropBlankEnd(lines))
    ensures DropBlankEnd(lines) != [] ==> Join(DropBlankEnd(lines)) != ""
  {
    var init, last := lines[..|lines| - 1], lines[|lines| - 1];
    assert lines == init + [last];
    assert Join([last]) == last;
    if init != [] {
      JoinAppend(init, [last]);
    }
    if last == "" {
      if init != [] {
        var t := Join(init);
        assert Join(lines) == t + "\n";
        assert (t + "\n")[..|t + "\n"| - 1] == t;
        TrimDropsBlanks(init);
      }
    } else {
      assert OneLine(lines[|lines| - 1]);
      assert last[|last| - 1] in last;
      assert Join(lines)[|Join(lines)| - 1] == last[|last| - 1];
    }
  }

  lemma AsLinesOneLiners(pairs: Pairs)
    requires ValidPairs(pairs)
    ensures OneLiners(AsLines(pairs))
  {
  }

  /** The text upsert is the line upsert. */
  lemma UpsertTextLines(text: string, pairs: Pairs)
    requires ValidPairs(pairs)
    ensures Split(UpsertText(text, pairs)) == UpsertLines(Split(text), pairs)
  {
    hide Split, Join, ValidKey, ValidValue, ReplaceAll, Missing, OneLine, TrimNewlines, DropBlankEnd;
    var lines := Split(text);
    SplitOneLiners(text);
    ReplaceAllOneLiners(lines, pairs);
    var r, m := ReplaceAll(lines, pairs), Missing(lines, pairs);
    if m == [] {
      SplitJoin(r);
    } else {
      MissingIsValid(lines, pairs);
      AsLinesOneLiners(m);
      TrimDropsBlanks(r);
      var kept, added := DropBlankEnd(r), AsLines(m);
      JoinEnds(kept, added);
      assert OneLiners(kept + added + [""]) by {
        assert OneLine("") by {
          BlankIsOneLine();
        }
      }
      SplitJoin(kept + added + [""]);
    }
  }

  lemma BlankIsOneLine()
    ensures OneLine("")
  {
  }

  lemma JoinEnds(kept: seq<string>, added: seq<string>)
    requires added != [] && (kept != [] ==> Join(kept) != "")
    ensures (if Join(kept) == "" then "" else Join(kept) + "\n") + Join(added) + "\n" == Join(kept + added + [""])
  {
    JoinAppend(added, [""]);
    assert Join([""]) == "";
    assert Join(added) + "\n" + "" == Join(added) + "\n";
    if kept == [] {
      assert kept + added + [""] == added + [""];
    } else {
      JoinAppend(kept, added + [""]);
      assert kept + added + [""] == kept + (added + [""]);
    }
  }

  // ---------- The theorems ----------

  /** Loading an upserted file gives each new value. */
  lemma UpsertedValueLoads(text: string, pairs: Pairs, p: (string, string))
    requires ValidPairs(pairs) && p in pairs
    ensures Lookup(Split(UpsertText(text, pairs)), p.0) == Some(p.1)
  {
    UpsertTextLines(text, pairs);
    UpsertSettles(Split(text), pairs, p);
    SettledLoads(UpsertLines(Split(text), pairs), p.0, p.1);
  }

  /** Every other key loads what it loaded before. */
  lemma UpsertPreservesOthers(text: string, pairs: Pairs, key: string)
    requires ValidPairs(pairs) && forall p | p in pairs :: p.0 != key
    ensures Lookup(Split(UpsertText(text, pairs)), key) == Lookup(Split(text), key)
  {
    UpsertTextLines(text, pairs);
    UpsertKeepsOthers(Split(text), pairs, key);
  }

  /** A second upsert of the same pairs is the identity on the text. */
  lemma UpsertIsIdempotent(text: string, pairs: Pairs)
    requires ValidPairs(pairs)
    ensures UpsertText(UpsertText(text, pairs), pairs) == UpsertText(text, pairs)
  {
    hide ValidKey, ValidValue, Settled, UpsertLines;
    var once := UpsertText(text, pairs);
    UpsertTextLines(text, pairs);
    forall p | p in pairs
      ensures Settled(Split(once), p.0, p.1)
    {
      UpsertSettles(Split(text), pairs, p);
    }
    SettledPairsStay(Split(once), pairs);
    SplitOneLiners(once);
  }

  /** On a line of its own a value survives exactly when it is valid. */
  lemma ValueSurvivesIffValid(k: string, v: string)
    requires ValidKey(k) && OneLine(v)
    ensures LoadLine(k + "=" + v) == Some((k, v)) <==> ValidValue(v)
  {
    if ValidValue(v) {
      FreshLine(k + "=" + v, k, v, k);
    }
    SurvivorIsValid(k, v);
  }

  /** Trimming a line keeps its key and some prefix of its raw value. */
  lemma TrimmedLine(k: string, v: string) returns (raw: string)
    requires ValidKey(k)
    ensures TrimSpace(k + "=" + v) == k + "=" + raw && raw <= v
  {
    var line := k + "=" + v;
    var t := TrimSpace(line);
    assert line[0] == 'M';
    assert t <= line;
    assert Tight(k + "=") by {
      assert (k + "=")[0] == 'M';
    }
    TrimKeepsPrefix(k + "=", line);
    raw := t[|k| + 1..];
    assert t == k + "=" + raw;
    assert v == line[|k| + 1..];
  }

  lemma SurvivorIsValid(k: string, v: string)
    requires ValidKey(k) && OneLine(v)
    ensures LoadLine(k + "=" + v) == Some((k, v)) ==> ValidValue(v)
  {
    var raw := TrimmedLine(k, v);
    FreshAssignment(k, raw);
    if Unquote(TrimSpace(raw)) == v && NUL !in v {
      assert |TrimSpace(raw)| <= |raw| <= |v|;
      assert TrimSpace(raw) == raw == v;
      TightIsTrimmed(v);
    }
  }

  /** A value in a pair of equal quotes loads without them, blanks at its ends and all,
      with or without "export" in front; one with a NUL is refused. */
  lemma QuotedValueLoads(k: string, v: string, q: char)
    requires ValidKey(k) && (q == '"' || q == '\'')
    ensures LoadLine(k + "=" + ([q] + v + [q])) == if NUL in v then None else Some((k, v))
    ensures LoadLine("export " + (k + "=" + ([q] + v + [q]))) == LoadLine(k + "=" + ([q] + v + [q]))
  {
    var raw := [q] + v + [q];
    var line := k + "=" + raw;
    FreshAssignment(k, raw);
    TightIsTrimmed(raw);
    TightIsTrimmed(line);
    assert line[0] == 'M' && line[|line| - 1] == q;
    assert Unquote(raw) == v;
    assert ' ' !in k && '\t' !in k;
    ExportedLoads(line);
  }

  /** The loader reads through a leading "export". */
  lemma ExportedLoads(line: string)
    requires line != "" && Tight(line) && line[0] == 'M'
    ensures LoadLine("export " + line) == LoadLine(line)
  {
    var exported := "export " + line;
    assert exported[0] == 'e' && exported[|exported| - 1] == line[|line| - 1];
    TightIsTrimmed(exported);
    TightIsTrimmed(line);
    assert EXPORT <= exported && exported[|EXPORT|..] == line;
    assert !(EXPORT <= line) by {
      assert EXPORT[0] == 'e';
    }
    assert Assignment(exported) == Assignment(line);
    assert !(HASH <= exported) && !(HASH <= line);
  }

  /** Whatever a line holds, only a MUNINN key without blanks is ever set, and neither it
      nor its value holds a NUL. */
  lemma LoadedKeys(line: string)
    ensures LoadLine(line).Some? ==>
              var (k, v) := LoadLine(line).value;
              "MUNINN" <= k && ' ' !in k && '\t' !in k && NUL !in k && NUL !in v
  {
  }
}
