/** The auth keyspace: byte-string keys, the range scans over them, and vault scopes. */
module AuthKeys {

  import opened Common

  type Bytes = seq<Byte>
  type Name = seq<Byte>

  const HASH_LENGTH := 16
  const KEY_ID_LENGTH := 8

  type Hash = s: Bytes | |s| == HASH_LENGTH witness seq(HASH_LENGTH, _ => 0)
  type KeyId = s: Bytes | |s| == KEY_ID_LENGTH witness seq(KEY_ID_LENGTH, _ => 0)

  const PREFIX_API_KEY: Byte := 0x43
  const PREFIX_VAULT_INDEX: Byte := 0x44
  const PREFIX_VAULT_CONFIG: Byte := 0x45
  const PREFIX_GLOB_INDEX: Byte := 0x46

  function StorageKey(h: Hash): Bytes { [PREFIX_API_KEY] + h }

  function VaultIndexPrefix(vault: Name): Bytes { [PREFIX_VAULT_INDEX] + vault + [0] }

  function VaultIndexKey(vault: Name, id: KeyId): Bytes { [PREFIX_VAULT_INDEX] + vault + [0] + id }

  function GlobIndexKey(id: KeyId): Bytes { [PREFIX_GLOB_INDEX] + id }

  function VaultConfigKey(vault: Name): Bytes { [PREFIX_VAULT_CONFIG] + vault }

  // ---------- Encoders ----------

  /** The index key as the source fills it, into one buffer. */
  method EncodeVaultIndexKey(vault: Name, id: KeyId) returns (key: array<Byte>)
    ensures fresh(key) && key[..] == VaultIndexKey(vault, id)
  {
    var n := |vault|;
    key := new Byte[1 + n + 1 + KEY_ID_LENGTH](_ => 0);
    key[0] := PREFIX_VAULT_INDEX;
    for i := 0 to n
      invariant key[..1 + i] == [PREFIX_VAULT_INDEX] + vault[..i]
    {
      key[1 + i] := vault[i];
    }
    key[1 + n] := 0;
    assert key[..n + 2] == [PREFIX_VAULT_INDEX] + vault + [0];
    for i := 0 to KEY_ID_LENGTH
      invariant key[..n + 2 + i] == [PREFIX_VAULT_INDEX] + vault + [0] + id[..i]
    {
      key[n + 2 + i] := id[i];
    }
    assert id[..KEY_ID_LENGTH] == id && key[..] == key[..n + 2 + KEY_ID_LENGTH];
  }

  lemma VaultIndexKeyInjective(v: Name, id: KeyId, w: Name, jd: KeyId)
    requires VaultIndexKey(v, id) == VaultIndexKey(w, jd)
    ensures v == w && id == jd
  {
    var k := VaultIndexKey(v, id);
    assert v == k[1..|k| - KEY_ID_LENGTH - 1] && id == k[|k| - KEY_ID_LENGTH..];
    assert w == k[1..|k| - KEY_ID_LENGTH - 1] && jd == k[|k| - KEY_ID_LENGTH..];
  }

  lemma StorageKeyInjective(g: Hash, h: Hash)
    requires StorageKey(g) == StorageKey(h)
    ensures g == h
  {
    assert StorageKey(g)[1..] == g && StorageKey(h)[1..] == h;
  }

  lemma GlobIndexKeyInjective(id: KeyId, jd: KeyId)
    requires GlobIndexKey(id) == GlobIndexKey(jd)
    ensures id == jd
  {
    assert GlobIndexKey(id)[1..] == id && GlobIndexKey(jd)[1..] == jd;
  }

  // ---------- Range scans ----------

  /** Keys from `lower`, inclusive, to `upper`, exclusive. */
  predicate InScan(key: Bytes, lower: Bytes, upper: Bytes) {
    !Less(key, lower) && Less(key, upper)
  }

  /** The last byte incremented: the end of the scan over a prefix. */
  function UpperBound(p: Bytes): Bytes
    requires p != [] && p[|p| - 1] < 255
  {
    p[|p| - 1 := p[|p| - 1] + 1]
  }

  /** Scanning from a prefix to its upper bound finds exactly the keys under it. */
  lemma {:induction false} ScanIsPrefix(key: Bytes, p: Bytes)
    requires p != [] && p[|p| - 1] < 255
    ensures InScan(key, p, UpperBound(p)) <==> p <= key
  {
    var u := UpperBound(p);
    if |p| == 1 {
      assert p == [p[0]] && u == [p[0] + 1] && p[1..] == [] && u[1..] == [];
      if key != [] {
        assert !Less(key[1..], p[1..]) && !Less(key[1..], u[1..]);
        assert p <= key <==> key[0] == p[0];
      }
    } else if key != [] && key[0] == p[0] {
      ScanIsPrefix(key[1..], p[1..]);
      assert UpperBound(p[1..]) == u[1..];
      assert p <= key <==> p[1..] <= key[1..] by {
        assert p == [p[0]] + p[1..] && key == [key[0]] + key[1..];
      }
    }
  }

  predicate NulFree(name: Name) {
    forall i | 0 <= i < |name| :: name[i] != 0
  }

  /** A vault's scan holds precisely that vault's index entries. */
  lemma VaultScanIsExact(v: Name, w: Name, id: KeyId)
    requires NulFree(v) && NulFree(w)
    ensures InScan(VaultIndexKey(w, id), VaultIndexPrefix(v), UpperBound(VaultIndexPrefix(v))) <==> v == w
  {
    var p, k := VaultIndexPrefix(v), VaultIndexKey(w, id);
    ScanIsPrefix(k, p);
    if p <= k {
      assert forall i | 0 <= i < |p| :: p[i] == k[i];
      assert p[1 + |v|] == 0 && k[1 + |w|] == 0;
      assert |v| == |w|;
      assert v == p[1..1 + |v|] && w == k[1..1 + |w|];
    }
    if v == w {
      assert k == p + id;
    }
  }

  /** Without the NUL condition a vault name can reach into another vault's scan. */
  lemma NulReachesAcross(w: Name, id: KeyId)
    ensures var v := w + [0] + id[..7];
            id[7] == 0 ==> v != w && InScan(VaultIndexKey(w, id), VaultIndexPrefix(v), UpperBound(VaultIndexPrefix(v)))
  {
    var v := w + [0] + id[..7];
    if id[7] == 0 {
      assert id == id[..7] + [0];
      assert VaultIndexPrefix(v) == VaultIndexKey(w, id);
      ScanIsPrefix(VaultIndexKey(w, id), VaultIndexPrefix(v));
      assert |v| != |w|;
    }
  }

  // ---------- Scopes ----------

  const STAR: Byte := 42

  predicate IsGlob(entry: Name) {
    entry != [] && entry[|entry| - 1] == STAR
  }

  predicate IsNameByte(b: Byte) {
    97 <= b <= 122 || 48 <= b <= 57 || b == 45 || b == 95
  }

  predicate IsValidVaultName(name: Name) {
    1 <= |name| <= 64 && forall i | 0 <= i < |name| :: IsNameByte(name[i])
  }

  predicate ValidScopeEntry(entry: Name, allowAll: bool) {
    if entry == [STAR] then allowAll
    else if IsGlob(entry) then
      var prefix := entry[..|entry| - 1];
      prefix != [] && STAR !in prefix && IsValidVaultName(prefix)
    else IsValidVaultName(entry)
  }

  predicate ValidScope(scope: seq<Name>, allowAll: bool) {
    scope != [] && forall i | 0 <= i < |scope| :: ValidScopeEntry(scope[i], allowAll)
  }

  /** What one entry covers: the vault it names, or every vault under its prefix. */
  predicate Covers(entry: Name, vault: Name) {
    if IsGlob(entry) then entry[..|entry| - 1] <= vault else entry == vault
  }

  predicate ScopeMatch(scope: seq<Name>, vault: Name) {
    if scope == [] then false
    else if scope[0] == [STAR] then true
    else if IsGlob(scope[0]) then scope[0][..|scope[0]| - 1] <= vault || ScopeMatch(scope[1..], vault)
    else scope[0] == vault || ScopeMatch(scope[1..], vault)
  }

  lemma {:induction false} ScopeMatchIsCover(scope: seq<Name>, vault: Name)
    ensures ScopeMatch(scope, vault) <==> exists i :: 0 <= i < |scope| && Covers(scope[i], vault)
  {
    if scope != [] {
      ScopeMatchIsCover(scope[1..], vault);
      if scope[0] == [STAR] {
        assert Covers(scope[0], vault);
      }
      if i :| 0 <= i < |scope[1..]| && Covers(scope[1..][i], vault) {
        assert Covers(scope[i + 1], vault);
      }
      if i :| 0 <= i < |scope| && Covers(scope[i], vault) {
        assert i > 0 ==> Covers(scope[1..][i - 1], vault);
      }
    }
  }

  function ResolveScopedVault(scope: seq<Name>, requested: Name): Option<Name> {
    if scope == [] then None
    else if requested == [] then (if IsGlob(scope[0]) then None else Some(scope[0]))
    else if ScopeMatch(scope, requested) then Some(requested)
    else None
  }

  /** Resolution only ever grants a vault the scope covers: an explicit request exactly
      when it is covered, and otherwise the first entry exactly when that is a literal. */
  lemma ResolveGrantsOnlyScope(scope: seq<Name>, requested: Name)
    ensures ResolveScopedVault(scope, requested).Some? ==> ScopeMatch(scope, ResolveScopedVault(scope, requested).value)
    ensures requested != [] ==>
              (ResolveScopedVault(scope, requested) == Some(requested) <==> ScopeMatch(scope, requested))
    ensures requested == [] ==>
              (ResolveScopedVault(scope, requested).Some? <==> scope != [] && !(exists p :: scope[0] == p + [42]))
    ensures requested == [] && ResolveScopedVault(scope, requested).Some? ==>
              ResolveScopedVault(scope, requested).value == scope[0]
  {
    if scope != [] && IsGlob(scope[0]) {
      assert scope[0] == scope[0][..|scope[0]| - 1] + [42];
    }
  }

  /** A name that can be indexed literally. */
  predicate IsLiteral(name: Name) {
    name != [] && !IsGlob(name) && NulFree(name)
  }

  lemma ValidEntriesAreIndexable(scope: seq<Name>, allowAll: bool)
    requires ValidScope(scope, allowAll)
    ensures forall i | 0 <= i < |scope| && !IsGlob(scope[i]) :: IsLiteral(scope[i])
  {
  }
}
