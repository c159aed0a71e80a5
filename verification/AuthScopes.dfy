/** What a validated scope looks like byte by byte, and how much of the vaults it can
    cover. */
module AuthScopes {

  import opened Common
  import opened AuthKeys
  import opened AuthStore
  import opened AuthCluster
  import opened AuthRuns

  // ---------- The grammar ----------

  /** One to 64 lower-case letters, digits, hyphens and underscores. */
  predicate Spelled(name: Name) {
    && 1 <= |name| <= 64
    && forall i | 0 <= i < |name| ::
         var c := name[i] as char;
         'a' <= c <= 'z' || '0' <= c <= '9' || c == '-' || c == '_'
  }

  /** A vault name, a vault name and one star, or the bare star if that is allowed. */
  ghost predicate Entry(entry: Name, allowAll: bool) {
    || Spelled(entry)
    || (exists p :: Spelled(p) && entry == p + ['*' as Byte])
    || (allowAll && entry == ['*' as Byte])
  }

  lemma SpelledHasNoStar(name: Name)
    requires Spelled(name)
    ensures STAR !in name && IsValidVaultName(name)
  {
    forall i | 0 <= i < |name|
      ensures name[i] != STAR && IsNameByte(name[i])
    {
      var c := name[i] as char;
    }
  }

  lemma ValidIsSpelled(name: Name)
    ensures IsValidVaultName(name) <==> Spelled(name)
  {
    if IsValidVaultName(name) {
      forall i | 0 <= i < |name|
        ensures var c := name[i] as char; 'a' <= c <= 'z' || '0' <= c <= '9' || c == '-' || c == '_'
      {
        assert IsNameByte(name[i]);
      }
    }
    if Spelled(name) {
      SpelledHasNoStar(name);
    }
  }

  lemma StarIsNotSpelled(entry: Name)
    requires IsGlob(entry)
    ensures !Spelled(entry)
  {
    var c := entry[|entry| - 1] as char;
  }

  lemma EmptyIsNotSpelled()
    ensures !Spelled([])
  {
  }

  lemma GlobEntryMeans(entry: Name)
    requires IsGlob(entry) && entry != [STAR]
    ensures ValidScopeEntry(entry, false) <==> Spelled(entry[..|entry| - 1])
    ensures !Spelled(entry)
  {
    hide IsValidVaultName, Spelled, IsNameByte;
    var prefix := entry[..|entry| - 1];
    ValidIsSpelled(prefix);
    if Spelled(prefix) {
      SpelledHasNoStar(prefix);
    }
    StarIsNotSpelled(entry);
  }

  lemma ValidEntryMeans(entry: Name, allowAll: bool)
    ensures ValidScopeEntry(entry, allowAll) <==> Entry(entry, allowAll)
  {
    hide IsNameByte, IsValidVaultName, Spelled;
    ValidIsSpelled(entry);
    if entry == [STAR] {
      StarIsNotSpelled(entry);
      assert forall p | entry == p + [STAR] :: p == [];
      assert !Spelled([]) by {
        EmptyIsNotSpelled();
      }
    } else if IsGlob(entry) {
      GlobEntryMeans(entry);
      var prefix := entry[..|entry| - 1];
      assert entry == prefix + [STAR];
      assert forall p | entry == p + [STAR] :: p == prefix;
    } else {
      assert forall p :: entry != p + [STAR];
    }
  }

  /** A scope is accepted exactly when it is not empty and every entry is well formed; the
      bare star needs the caller's leave. */
  lemma ValidScopeMeans(scope: seq<Name>, allowAll: bool)
    ensures ValidScope(scope, allowAll) <==> scope != [] && forall i | 0 <= i < |scope| :: Entry(scope[i], allowAll)
  {
    hide ValidScopeEntry, Entry;
    forall i | 0 <= i < |scope|
      ensures ValidScopeEntry(scope[i], allowAll) <==> Entry(scope[i], allowAll)
    {
      ValidEntryMeans(scope[i], allowAll);
    }
  }

  /** Without that leave a scope covers a vault exactly when it names it or names a
      non-empty prefix of it with a star. */
  lemma CoveredMeans(scope: seq<Name>, vault: Name)
    requires ValidScope(scope, false)
    ensures ScopeMatch(scope, vault) <==>
            vault in scope || exists n :: 0 < n <= |vault| && vault[..n] + ['*' as Byte] in scope
  {
    ScopeMatchIsCover(scope, vault);
    hide ScopeMatch;
    forall i | 0 <= i < |scope|
      ensures Entry(scope[i], false)
    {
      ValidEntryMeans(scope[i], false);
    }
    if i :| 0 <= i < |scope| && Covers(scope[i], vault) {
      EntryCovers(scope[i], vault);
      assert scope[i] in scope;
    }
    if vault in scope {
      var i :| 0 <= i < |scope| && scope[i] == vault;
      assert Covers(scope[i], vault);
    }
    if n :| 0 < n <= |vault| && vault[..n] + [STAR] in scope {
      var i :| 0 <= i < |scope| && scope[i] == vault[..n] + [STAR];
      assert scope[i][..|scope[i]| - 1] == vault[..n];
      assert Covers(scope[i], vault);
    }
  }

  lemma EntryCovers(entry: Name, vault: Name)
    requires Entry(entry, false) && Covers(entry, vault)
    ensures entry == vault || exists n :: 0 < n <= |vault| && entry == vault[..n] + [STAR]
  {
    if Spelled(entry) {
      SpelledHasNoStar(entry);
      assert entry[|entry| - 1] in entry;
    } else {
      var p :| Spelled(p) && entry == p + [STAR];
      assert entry[..|entry| - 1] == p == vault[..|p|];
    }
  }

  // ---------- How much a scope can cover ----------

  const NAME_BYTES := 38

  /** The bytes a name may start with: 26 letters, ten digits, the hyphen, the underscore. */
  function NameByte(k: nat): Byte
    requires k < NAME_BYTES
  {
    if k < 26 then 97 + k else if k < 36 then 48 + (k - 26) else if k == 36 then 45 else 95
  }

  lemma NameByteIsSpelled(k: nat)
    requires k < NAME_BYTES
    ensures IsValidVaultName([NameByte(k)])
  {
  }

  lemma {:induction false} Pigeonhole(n: nat, used: set<Byte>) returns (k: nat)
    requires n <= NAME_BYTES && |used| < n
    ensures k < n && NameByte(k) !in used
  {
    k := n - 1;
    if NameByte(k) in used {
      k := Pigeonhole(n - 1, used - {NameByte(k)});
    }
  }

  /** The first bytes of the entries. */
  function Heads(scope: seq<Name>): set<Byte> {
    set i | 0 <= i < |scope| && scope[i] != [] :: scope[i][0]
  }

  lemma {:induction false} HeadsAreFew(scope: seq<Name>)
    ensures |Heads(scope)| <= |scope|
  {
    if scope != [] {
      var init, last := scope[..|scope| - 1], scope[|scope| - 1];
      HeadsAreFew(init);
      assert Heads(scope) == Heads(init) + if last == [] then {} else {last[0]} by {
        assert forall i | 0 <= i < |init| :: init[i] == scope[i];
      }
    }
  }

  /** A covered vault starts like some entry. */
  lemma CoveredIsStarted(scope: seq<Name>, vault: Name)
    requires ValidScope(scope, false) && vault != [] && ScopeMatch(scope, vault)
    ensures vault[0] in Heads(scope)
  {
    CoveredMeans(scope, vault);
    hide ValidScope, ScopeMatch;
    var n: nat := 0;
    var entry := vault;
    if vault !in scope {
      n :| 0 < n <= |vault| && vault[..n] + [STAR] in scope;
      entry := vault[..n] + [STAR];
    }
    var i :| 0 <= i < |scope| && scope[i] == entry;
    assert scope[i][0] == vault[0];
  }

  /** One glob for each byte a name may start with, the last repeated up to length n. */
  function EveryHead(n: nat): (scope: seq<Name>)
    requires n >= NAME_BYTES
    ensures |scope| == n
  {
    seq(n, i requires 0 <= i < n => [NameByte(if i < NAME_BYTES then i else 0), STAR])
  }

  lemma EveryHeadCovers(n: nat, vault: Name)
    requires n >= NAME_BYTES
    ensures ValidScope(EveryHead(n), false)
    ensures IsValidVaultName(vault) ==> ScopeMatch(EveryHead(n), vault)
  {
    var scope := EveryHead(n);
    forall i | 0 <= i < n
      ensures ValidScopeEntry(scope[i], false)
    {
      var b := NameByte(if i < NAME_BYTES then i else 0);
      assert scope[i][..1] == [b];
    }
    if IsValidVaultName(vault) {
      var k := HeadIndex(vault[0]);
      assert scope[k][..1] == [vault[0]] <= vault;
      assert Covers(scope[k], vault);
      ScopeMatchIsCover(scope, vault);
    }
  }

  lemma HeadIndex(b: Byte) returns (k: nat)
    requires IsNameByte(b)
    ensures k < NAME_BYTES && NameByte(k) == b
  {
    k := if b >= 97 then b - 97 else if b == 95 then 37 else if b == 45 then 36 else b - 48 + 26;
  }

  /** Leaving out the bare star does not by itself keep a key from every vault: scopes of n
      entries all leave some valid vault uncovered if and only if n is below 38. */
  lemma NarrowIff(n: nat)
    ensures n < 38 <==>
            forall scope: seq<Name> | |scope| == n && ValidScope(scope, false) ::
              exists vault :: IsValidVaultName(vault) && !ScopeMatch(scope, vault)
  {
    hide ScopeMatch, ValidScope, IsValidVaultName;
    if n < 38 {
      forall scope: seq<Name> | |scope| == n && ValidScope(scope, false)
        ensures exists vault :: IsValidVaultName(vault) && !ScopeMatch(scope, vault)
      {
        HeadsAreFew(scope);
        var k := Pigeonhole(NAME_BYTES, Heads(scope));
        NameByteIsSpelled(k);
        if ScopeMatch(scope, [NameByte(k)]) {
          CoveredIsStarted(scope, [NameByte(k)]);
        }
      }
    } else {
      var scope := EveryHead(n);
      forall vault
        ensures ValidScope(scope, false) && (IsValidVaultName(vault) ==> ScopeMatch(scope, vault))
      {
        EveryHeadCovers(n, vault);
      }
      EveryHeadCovers(n, []);
    }
  }

  // ---------- Over whole runs ----------

  ghost predicate Bounded(recs: Records) {
    forall h | h in recs :: ['*' as Byte] !in recs[h].Scope()
  }

  lemma StepBounded(recs: Records, op: AuthOp, env: Env)
    requires Bounded(recs) && Admissible(recs, op) && (op.Scoped? ==> !op.allowAll)
    ensures Bounded(RecordsStep(recs, op, env))
  {
    match op
    case Generate(h, vault, title, mode) =>
      assert LegacyKey(h, vault, title, mode).Scope() == [vault];
      assert vault != [STAR];
    case Scoped(h, scope, title, mode, allowAll) =>
      if ValidScope(scope, false) {
        assert forall i | 0 <= i < |scope| :: scope[i] != [STAR];
      }
    case _ =>
  }

  /** Unless a caller asks for it, no run mints a key whose scope holds the bare star. */
  lemma {:induction false} RunBounded(recs: Records, run: Run)
    requires Bounded(recs) && AdmissibleRun(recs, run)
    requires forall i | 0 <= i < |run| && run[i].0.Scoped? :: !run[i].0.allowAll
    ensures Bounded(RecordsAfter(recs, run))
    decreases |run|
  {
    hide Bounded, RecordsStep, Admissible;
    if run != [] {
      var init, last := run[..|run| - 1], run[|run| - 1];
      assert forall i | 0 <= i < |init| :: init[..i] == run[..i];
      RunBounded(recs, init);
      StepBounded(RecordsAfter(recs, init), last.0, last.1);
    }
  }

  // ---------- What a mint records ----------

  /** A single-vault key takes four modes and any name; a scoped key three of them and a
      valid scope. Nothing else is ever recorded. */
  lemma MintRecordsIff(recs: Records, h: Hash, vault: Name, scope: seq<Name>, title: string, mode: string,
                       allowAll: bool, env: Env)
    requires h !in recs && env.committed
    ensures h in RecordsStep(recs, Generate(h, vault, title, mode), env) <==>
            !env.refused && (mode == "full" || mode == "observe" || mode == "write" || mode == "append")
    ensures h in RecordsStep(recs, Scoped(h, scope, title, mode, allowAll), env) <==>
            ValidScope(scope, allowAll) && (mode == "full" || mode == "observe" || mode == "write")
  {
    hide ValidScope;
  }

  /** The single vault a scoped key is stored with is the one its scope resolves to without
      a request; it is empty when there is none. */
  lemma StoredVaultIsDefault(h: Hash, scope: seq<Name>, title: string, mode: string, allowAll: bool)
    requires ValidScope(scope, allowAll)
    ensures var k := ScopedKey(h, scope, title, mode);
            && k.Scope() == scope && k.id == h[..8]
            && ResolveScopedVault(scope, []) == if k.vault == [] then None else Some(k.vault)
  {
    assert IsValidVaultName(scope[0]) ==> scope[0] != [];
  }
}
