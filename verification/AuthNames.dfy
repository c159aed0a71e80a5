/** What an unvalidated vault name can do to the auth store: which names list keys of other
    vaults, and which leave an index entry behind when their key is revoked. */
module AuthNames {

  import opened Common
  import opened AuthKeys
  import opened AuthStore
  import opened AuthBatches
  import opened AuthListing

  // ---------- Listing ----------

  /** The name is a vault's name, a NUL and fewer bytes than an id has. */
  ghost predicate CanStray(vault: Name) {
    exists n :: 0 < n < |vault| && vault[n] == 0 && IsLiteral(vault[..n]) && |vault| - n - 1 < KEY_ID_LENGTH
  }

  /** A stray spells out the name of the vault it strays from. */
  lemma StrayNeedsName(k: APIKey, vault: Name)
    requires Strays(k, vault) && forall w | w in Literals(k) :: IsLiteral(w)
    ensures CanStray(vault)
  {
    hide Literals;
    var w :| w in Literals(k) && w != vault && VaultIndexPrefix(vault) <= VaultIndexKey(w, k.id);
    var p, b, n := VaultIndexPrefix(vault), VaultIndexKey(w, k.id), |w|;
    assert forall i | 0 <= i < |vault| :: p[1 + i] == vault[i] == b[1 + i];
    assert p[1 + |vault|] == 0 == b[1 + |vault|];
    assert forall i | 0 <= i < n :: b[1 + i] == w[i];
    assert b[1 + n] == 0;
    assert |vault| == n ==> vault == w;
    assert |vault| > n ==> vault[..n] == w && vault[n] == 0;
  }

  /** A hash that begins with `rest` and a zero. */
  function HashFor(rest: Bytes): Hash
    requires |rest| < KEY_ID_LENGTH
  {
    rest + seq(HASH_LENGTH - |rest|, _ => 0)
  }

  /** The key that strays: minted for the beginning of the name, with an id that begins
      like the rest of it. */
  function StrayKey(vault: Name, n: nat): APIKey
    requires n < |vault| && |vault| - n - 1 < KEY_ID_LENGTH
  {
    LegacyKey(HashFor(vault[n + 1..]), vault[..n], "", "full")
  }

  /** The scan prefix of a name made of `w`, a NUL and `rest` runs into `w`'s entries. */
  lemma PrefixRunsOn(w: Name, rest: Bytes, more: Bytes, id: KeyId)
    requires id == rest + [0] + more
    ensures VaultIndexPrefix(w + [0] + rest) <= VaultIndexKey(w, id)
  {
    assert VaultIndexKey(w, id) == VaultIndexPrefix(w + [0] + rest) + more;
  }

  lemma HashForBegins(rest: Bytes) returns (more: Bytes)
    requires |rest| < KEY_ID_LENGTH
    ensures IdOf(HashFor(rest)) == rest + [0] + more
  {
    more := IdOf(HashFor(rest))[|rest| + 1..];
  }

  lemma StrayKeyStrays(vault: Name, n: nat)
    requires 0 < n < |vault| && vault[n] == 0 && IsLiteral(vault[..n]) && |vault| - n - 1 < KEY_ID_LENGTH
    ensures var k := StrayKey(vault, n); Strays(k, vault) && !ScopeMatch(k.Scope(), vault)
  {
    var k, w, rest := StrayKey(vault, n), vault[..n], vault[n + 1..];
    assert vault == w + [0] + rest;
    var more := HashForBegins(rest);
    PrefixRunsOn(w, rest, more, k.id);
    LegacyLiterals(k.hash, w, "", "full");
    assert k.Scope() == [w];
    hide VaultIndexKey, VaultIndexPrefix, Literals, HashFor;
    SingleScope(w, vault);
    assert |w| != |vault|;
  }

  /** A store that holds nothing but one key. */
  lemma OneKeyStore(k: APIKey)
    requires k.id == IdOf(k.hash) && forall v | v in Literals(k) :: IsLiteral(v)
    ensures Represents(Insert(map[], k), map[k.hash := k])
  {
    var none: DB, nobody: Records := map[], map[];
    assert Represents(none, nobody);
    InsertRepresents(none, nobody, k);
    assert nobody[k.hash := k] == map[k.hash := k];
  }

  /** Listing a vault is exact in every store if and only if its name cannot stray. */
  lemma ListingIsSafeIff(vault: Name)
    ensures (forall db, recs | Represents(db, recs) :: ReachesExactly(db, recs, vault)) <==> !CanStray(vault)
  {
    if CanStray(vault) {
      var n :| 0 < n < |vault| && vault[n] == 0 && IsLiteral(vault[..n]) && |vault| - n - 1 < KEY_ID_LENGTH;
      var k := StrayKey(vault, n);
      StrayKeyStrays(vault, n);
      LegacyLiterals(k.hash, vault[..n], "", "full");
      OneKeyStore(k);
      var db, recs := Insert(map[], k), map[k.hash := k];
      assert recs[k.hash] == k;
      assert Live(recs, k);
      hide Strays, ScopeMatch, Represents, ReachesExactly, CanStray;
      ScansAreExact(db, recs, vault);
    } else {
      forall db, recs | Represents(db, recs)
        ensures ReachesExactly(db, recs, vault)
      {
        forall k | Live(recs, k)
          ensures !Strays(k, vault)
        {
          LiveIndexable(db, recs, k);
          if Strays(k, vault) {
            StrayNeedsName(k, vault);
          }
        }
        ScansAreExact(db, recs, vault);
      }
    }
  }

  lemma LegacyLiterals(h: Hash, vault: Name, title: string, mode: string)
    requires IsLiteral(vault)
    ensures Literals(LegacyKey(h, vault, title, mode)) == {vault}
  {
    assert LegacyKey(h, vault, title, mode).Scope() == [vault];
  }

  lemma LiveIndexable(db: DB, recs: Records, k: APIKey)
    requires Represents(db, recs) && Live(recs, k)
    ensures forall w | w in Literals(k) :: IsLiteral(w)
  {
    hide Literals;
  }

  // ---------- Minting and revoking ----------

  /** Minting a key for any name and revoking it under that name succeeds; it restores the
      keyspace if and only if the name is neither empty nor a glob. Otherwise the key's
      index entry stays behind. */
  lemma MintThenRevoke(db: DB, recs: Records, h: Hash, vault: Name, title: string, mode: string)
    requires Represents(db, recs) && Unused(recs, h)
    ensures var k := LegacyKey(h, vault, title, mode);
            var minted := ApplyOps(db, GenerateOps(k));
            var batch := Revocation(minted, vault, IdOf(h));
            && batch.Some?
            && (ApplyOps(minted, batch.value) == db <==> vault != [] && !IsGlob(vault))
            && (VaultIndexKey(vault, IdOf(h)) in ApplyOps(minted, batch.value) <==> vault == [] || IsGlob(vault))
  {
    var k := LegacyKey(h, vault, title, mode);
    var minted := ApplyOps(db, GenerateOps(k));
    var b := VaultIndexKey(vault, k.id);
    GenerateOpsEffect(db, k);
    assert minted == db[StorageKey(h) := Record(k)][b := Pointer(h)];
    assert b[0] != StorageKey(h)[0];
    assert Revocation(minted, vault, k.id) == Some(RevokeOps(k, h));
    RevokeOpsRemove(minted, k, h);
    UnusedKeys(db, recs, k);
    VaultKeyInIndex(k, vault, k.id);
    if vault != [] && !IsGlob(vault) {
      assert k.Scope() == [vault];
      assert Literals(k) == {vault};
      assert IndexKeys(k) == {b};
    } else {
      assert vault !in Literals(k);
    }
  }

  /** None of an unused key's entries, nor its record, is in the store. */
  lemma UnusedKeys(db: DB, recs: Records, k: APIKey)
    requires Represents(db, recs) && Unused(recs, k.hash) && k.id == IdOf(k.hash)
    ensures StorageKey(k.hash) !in db && VaultIndexKey(k.vault, k.id) !in db
  {
    var b := VaultIndexKey(k.vault, k.id);
    assert IsIndexKey(b);
    if b in db {
      VaultKeyInIndex(recs[db[b].hash], k.vault, k.id);
    }
  }
}
