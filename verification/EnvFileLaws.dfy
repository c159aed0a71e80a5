/** The env-file round trip: loading an upserted file gives the new values, changes no
    other key, and a second upsert changes nothing. */
module EnvFileLaws {

  import opened Common
  import opened EnvFile

  /** A key the loader accepts and the matchers can find. */
  predicate ValidKey(k: string) {
    && "MUNINN" <= k
    && (forall i | 0 <= i < |k| :: !IsSpace(k[i]))
    && '=' !in k && NUL !in k
  }

  /** A value that a line can carry unchanged. */
  predicate ValidValue(v: string) {
    Tight(v) && !Quoted(v) && '\n' !in v && NUL !in v
  }

  ghost predicate ValidPairs(pairs: Pairs) {
    && (forall p | p in pairs :: ValidKey(p.0) && ValidValue(p.1))
    && (forall i, j | 0 <= i < j < |pairs| :: pairs[i].0 != pairs[j].0)
  }

  // ---------- One line ----------

  lemma {:induction false} TrimRightKeeps(p: string, x: string)
    requires p != "" && !IsSpace(p[|p| - 1])
    ensures p <= TrimRight(p + x)
  {
    if x == "" {
      assert p + x == p;
    } else {
      assert (p + x)[..|p + x| - 1] == p + x[..|x| - 1];
      TrimRightKeeps(p, x[..|x| - 1]);
    }
  }

  /** A text that starts with a tight prefix keeps it when trimmed. */
  lemma TrimKeepsPrefix(p: string, s: string)
    requires p != "" && Tight(p) && p <= s
    ensures p <= TrimSpace(s)
  {
    assert TrimLeft(s) == s;
    assert s == p + s[|p|..];
    TrimRightKeeps(p, s[|p|..]);
  }

  lemma FreshLineTrims(k: string, v: string, cr: string)
    requires ValidKey(k) && ValidValue(v) && (cr == "" || cr == [CR])
    ensures TrimSpace(k + "=" + v + cr) == k + "=" + v
  {
    var t := k + "=" + v;
    assert Tight(t) by {
      assert t[0] == k[0];
      assert t[|t| - 1] == if v == "" then '=' else v[|v| - 1];
    }
    TightIsTrimmed(t);
    if cr == "" {
      assert t + cr == t;
    } else {
      assert (t + cr)[..|t + cr| - 1] == t;
      assert TrimLeft(t + cr) == t + cr;
    }
  }

  lemma FreshAssignment(k: string, v: string)
    requires ValidKey(k)
    ensures Assignment(k + "=" + v) == Some((k, v))
    ensures !(HASH <= k + "=" + v)
  {
    var t := k + "=" + v;
    assert t[0] == 'M';
    assert !(EXPORT <= t) by {
      assert EXPORT[0] == 'e';
    }
    assert t[..|k|] == k;
    IndexOfUnique(t, '=', |k|);
    TightIsTrimmed(k);
    assert t[|k| + 1..] == v;
  }

  /** A line the upsert writes. */
  predicate IsFresh(line: string, k: string, v: string) {
    line == k + "=" + v || line == k + "=" + v + [CR]
  }

  lemma FreshLine(line: string, k: string, v: string, key: string)
    requires ValidKey(k) && ValidValue(v) && IsFresh(line, k, v)
    ensures LoadLine(line) == Some((k, v))
    ensures Matches(line, key) <==> key == k
    ensures MatchesActive(line, key) <==> key == k
  {
    var t := k + "=" + v;
    FreshLineTrims(k, v, "");
    FreshLineTrims(k, v, [CR]);
    assert t + "" == t;
    assert TrimSpace(line) == t;
    FreshAssignment(k, v);
    TightIsTrimmed(v);
    TightIsTrimmed(t);
    assert t != "" && TrimPrefix(t, HASH) == t;
    assert ' ' !in k && '\t' !in k;
  }

  const SUPERSEDED_WORDS := "superseded by muninn init:"

  /** A line the upsert comments out assigns no key it could be asked for. */
  lemma SupersededLine(line: string, key: string)
    ensures LoadLine(SUPERSEDED + line).None? && !MatchesActive(SUPERSEDED + line, key)
    ensures ValidKey(key) ==> !Matches(SUPERSEDED + line, key)
  {
    var s := SUPERSEDED + line;
    var head := "# " + SUPERSEDED_WORDS;
    assert s[..|head|] == head;
    assert Tight(head) by {
      assert head[0] == '#' && head[|head| - 1] == ':';
    }
    TrimKeepsPrefix(head, s);
    var t := TrimSpace(s);
    assert head[0] == '#' && HASH <= t;
    if ValidKey(key) {
      SupersededKey(t[1..], key);
    }
  }

  lemma SupersededKey(t: string, key: string)
    requires [' '] + SUPERSEDED_WORDS <= t && ValidKey(key)
    ensures !Assigns(TrimSpace(t), key)
  {
    var w := SUPERSEDED_WORDS;
    var rest := t[1..];
    assert w <= rest by {
      assert t[..|w| + 1] == [' '] + w;
      assert rest[..|w|] == w;
    }
    assert t[0] == ' ' && w[0] == 's';
    assert TrimLeft(t) == TrimLeft(rest);
    assert TrimSpace(t) == TrimSpace(rest);
    TrimKeepsPrefix(w, rest);
  }

  /** What the loader or the active matcher accepts, the upsert's matcher finds. */
  lemma ActiveMatches(line: string, key: string)
    ensures MatchesActive(line, key) ==> Matches(line, key)
    ensures Loads(line, key) ==> MatchesActive(line, key)
  {
    TightIsTrimmed(TrimSpace(line));
  }

  /** A line is an assignment of at most one key. */
  lemma OneKey(line: string, k: string, key: string)
    requires Matches(line, k) && key != k
    ensures !Matches(line, key) && !MatchesActive(line, key) && !Loads(line, key)
  {
  }

  // ---------- One pair ----------

  lemma NewLineIsFresh(line: string, k: string, v: string)
    ensures IsFresh(NewLine(line, k, v), k, v)
  {
  }

  /** Replacing the line of `k` never changes what another key loads. */
  lemma {:induction false} ReplaceKeepsOthers(lines: seq<string>, k: string, v: string, found: bool, key: string)
    requires ValidKey(k) && ValidValue(v) && key != k
    ensures Lookup(Replace(lines, k, v, found), key) == Lookup(lines, key)
  {
    hide Matches, MatchesActive, LoadLine, NewLine, ValidKey, ValidValue;
    if lines != [] {
      var line, tail := lines[0], lines[1..];
      if !found && Matches(line, k) {
        OneKey(line, k, key);
        NewLineIsFresh(line, k, v);
        FreshLine(NewLine(line, k, v), k, v, key);
        ReplaceKeepsOthers(tail, k, v, true, key);
      } else {
        ReplaceKeepsOthers(tail, k, v, found, key);
        if found && MatchesActive(line, k) {
          ActiveMatches(line, k);
          OneKey(line, k, key);
          SupersededLine(line, key);
        }
      }
    }
  }

  lemma {:induction false} ReplaceSets(lines: seq<string>, k: string, v: string)
    requires ValidKey(k) && ValidValue(v)
    ensures Lookup(Replace(lines, k, v, false), k) == if Found(lines, k) then Some(v) else None
  {
    hide Matches, MatchesActive, LoadLine, NewLine, ValidKey, ValidValue;
    if lines != [] {
      var line := lines[0];
      if Matches(line, k) {
        NewLineIsFresh(line, k, v);
        FreshLine(NewLine(line, k, v), k, v, k);
      } else {
        ActiveMatches(line, k);
        ReplaceSets(lines[1..], k, v);
      }
    }
  }

  // ---------- Settled keys ----------

  ghost predicate NoActive(lines: seq<string>, k: string) {
    forall i | 0 <= i < |lines| :: !MatchesActive(lines[i], k)
  }

  /** The first line that matches `k` carries `v`, and no later one is active. */
  ghost predicate Settled(lines: seq<string>, k: string, v: string) {
    lines != [] &&
      if Matches(lines[0], k) then IsFresh(lines[0], k, v) && NoActive(lines[1..], k)
      else Settled(lines[1..], k, v)
  }

  lemma {:induction false} NoActiveReplace(lines: seq<string>, k: string, v: string, key: string, found: bool)
    requires ValidKey(k) && ValidValue(v) && (NoActive(lines, key) || (key == k && found)) && (key == k ==> found)
    ensures NoActive(Replace(lines, k, v, found), key)
  {
    hide Matches, MatchesActive, LoadLine, NewLine, ValidKey, ValidValue;
    if lines != [] {
      var line, tail := lines[0], lines[1..];
      assert NoActive(lines, key) ==> NoActive(tail, key) by {
        assert forall i | 0 <= i < |tail| :: tail[i] == lines[i + 1];
      }
      var found' := found || Matches(line, k);
      NoActiveReplace(tail, k, v, key, found');
      NewLineIsFresh(line, k, v);
      FreshLine(NewLine(line, k, v), k, v, key);
      SupersededLine(line, key);
    }
  }

  lemma {:induction false} ReplaceSettles(lines: seq<string>, k: string, v: string)
    requires ValidKey(k) && ValidValue(v) && Found(lines, k)
    ensures Settled(Replace(lines, k, v, false), k, v)
  {
    hide Matches, MatchesActive, LoadLine, NewLine, ValidKey, ValidValue, IsFresh;
    var line, tail := lines[0], lines[1..];
    if Matches(line, k) {
      NewLineIsFresh(line, k, v);
      FreshLine(NewLine(line, k, v), k, v, k);
      NoActiveReplace(tail, k, v, k, true);
    } else {
      ReplaceSettles(tail, k, v);
    }
  }

  /** Upserting another key leaves a settled key settled and an absent one absent. */
  lemma {:induction false} ReplaceOther(lines: seq<string>, k: string, v: string, found: bool, key: string,
                                        value: string)
    requires ValidKey(k) && ValidValue(v) && ValidKey(key) && key != k
    ensures Settled(lines, key, value) ==> Settled(Replace(lines, k, v, found), key, value)
    ensures Found(Replace(lines, k, v, found), key) <==> Found(lines, key)
  {
    hide Matches, MatchesActive, LoadLine, NewLine, ValidKey, ValidValue, IsFresh;
    if lines != [] {
      var line, tail := lines[0], lines[1..];
      var found' := found || Matches(line, k);
      ReplaceOther(tail, k, v, found', key, value);
      if NoActive(tail, key) {
        NoActiveReplace(tail, k, v, key, found');
      }
      if Matches(line, k) {
        OneKey(line, k, key);
      }
      ActiveMatches(line, k);
      NewLineIsFresh(line, k, v);
      FreshLine(NewLine(line, k, v), k, v, key);
      SupersededLine(line, key);
    }
  }

  lemma {:induction false} ReplaceNothing(lines: seq<string>, k: string, v: string)
    requires NoActive(lines, k)
    ensures Replace(lines, k, v, true) == lines
  {
    if lines != [] {
      assert forall i | 0 <= i < |lines| - 1 :: lines[1..][i] == lines[i + 1];
      ReplaceNothing(lines[1..], k, v);
    }
  }

  /** Upserting a settled key changes nothing. */
  lemma {:induction false} SettledIsFixpoint(lines: seq<string>, k: string, v: string)
    requires ValidKey(k) && ValidValue(v) && Settled(lines, k, v)
    ensures Found(lines, k) && Replace(lines, k, v, false) == lines
  {
    hide Matches, MatchesActive, LoadLine, ValidKey;
    if Matches(lines[0], k) {
      FreshUnchanged(lines[0], k, v);
      ReplaceNothing(lines[1..], k, v);
    } else {
      SettledIsFixpoint(lines[1..], k, v);
    }
  }

  lemma FreshUnchanged(line: string, k: string, v: string)
    requires ValidValue(v) && IsFresh(line, k, v)
    ensures NewLine(line, k, v) == line
  {
  }
}
