/** The batches the key operations commit are exact: minting writes a key with all its
    index entries, revoking deletes a key with all of them. */
module AuthBatches {

  import opened Common
  import opened AuthKeys
  import opened AuthStore

  function EntryKeys(id: KeyId, scope: seq<Name>): set<Bytes> {
    set v | v in LiteralsIn(scope) :: VaultIndexKey(v, id)
  }

  function PutAll(db: DB, keys: set<Bytes>, v: Value): DB {
    map b | b in db.Keys + keys :: if b in keys then v else db[b]
  }

  lemma {:induction false} ApplyConcat(db: DB, a: seq<BatchOp>, b: seq<BatchOp>)
    ensures ApplyOps(db, a + b) == ApplyOps(ApplyOps(db, a), b)
    decreases |b|
  {
    if b == [] {
      assert a + b == a;
    } else {
      assert (a + b)[..|a + b| - 1] == a + b[..|b| - 1];
      ApplyConcat(db, a, b[..|b| - 1]);
    }
  }

  lemma ApplyOne(db: DB, op: BatchOp)
    ensures ApplyOps(db, [op]) == ApplyOp(db, op)
  {
  }

  lemma EntryKeysSplit(id: KeyId, scope: seq<Name>)
    requires scope != []
    ensures var init, e := scope[..|scope| - 1], scope[|scope| - 1];
            EntryKeys(id, scope) == EntryKeys(id, init) + if IsGlob(e) then {} else {VaultIndexKey(e, id)}
  {
  }

  lemma PutOneMore(db: DB, keys: set<Bytes>, b: Bytes, v: Value)
    ensures PutAll(db, keys, v)[b := v] == PutAll(db, keys + {b}, v)
  {
  }

  lemma RepeatedEntry(id: KeyId, scope: seq<Name>, e: Name)
    requires e in scope && !IsGlob(e)
    ensures VaultIndexKey(e, id) in EntryKeys(id, scope)
  {
  }

  /** Skipping repeated literals loses no entry. */
  lemma {:induction false} LiteralOpsPut(db: DB, k: APIKey, scope: seq<Name>)
    ensures ApplyOps(db, LiteralOps(k, scope)) == PutAll(db, EntryKeys(k.id, scope), Pointer(k.hash))
    decreases |scope|
  {
    hide VaultIndexKey, PutAll, EntryKeys;
    if scope == [] {
      NothingPut(db, k);
    } else {
      var init, e := scope[..|scope| - 1], scope[|scope| - 1];
      LiteralOpsPut(db, k, init);
      EntryKeysSplit(k.id, scope);
      if IsGlob(e) || e in init {
        assert LiteralOps(k, scope) == LiteralOps(k, init);
        if !IsGlob(e) {
          RepeatedEntry(k.id, init, e);
        }
        assert EntryKeys(k.id, scope) == EntryKeys(k.id, init);
      } else {
        var op := Set(VaultIndexKey(e, k.id), Pointer(k.hash));
        ApplyConcat(db, LiteralOps(k, init), [op]);
        ApplyOne(ApplyOps(db, LiteralOps(k, init)), op);
        PutOneMore(db, EntryKeys(k.id, init), VaultIndexKey(e, k.id), Pointer(k.hash));
      }
    }
  }

  lemma NothingPut(db: DB, k: APIKey)
    ensures ApplyOps(db, LiteralOps(k, [])) == PutAll(db, EntryKeys(k.id, []), Pointer(k.hash))
  {
  }

  lemma {:induction false} UnindexOpsDelete(db: DB, k: APIKey, scope: seq<Name>)
    ensures ApplyOps(db, UnindexOps(k, scope)) == db - EntryKeys(k.id, scope)
    decreases |scope|
  {
    hide VaultIndexKey, EntryKeys;
    if scope == [] {
      NothingDeleted(db, k);
    } else {
      var init, e := scope[..|scope| - 1], scope[|scope| - 1];
      UnindexOpsDelete(db, k, init);
      EntryKeysSplit(k.id, scope);
      if IsGlob(e) {
        assert UnindexOps(k, scope) == UnindexOps(k, init);
        assert EntryKeys(k.id, scope) == EntryKeys(k.id, init);
      } else {
        var op := Delete(VaultIndexKey(e, k.id));
        ApplyConcat(db, UnindexOps(k, init), [op]);
        ApplyOne(ApplyOps(db, UnindexOps(k, init)), op);
      }
    }
  }

  lemma NothingDeleted(db: DB, k: APIKey)
    ensures ApplyOps(db, UnindexOps(k, [])) == db - EntryKeys(k.id, [])
  {
  }

  lemma IndexKeysSplit(k: APIKey)
    ensures IndexKeys(k) == EntryKeys(k.id, k.Scope()) + if HasGlob(k) then {GlobIndexKey(k.id)} else {}
  {
  }

  /** The scoped batch writes the record and exactly the entries its scope calls for. */
  lemma ScopedOpsInsert(db: DB, k: APIKey)
    requires k.vaults != []
    ensures ApplyOps(db, ScopedOps(k)) == Insert(db, k)
  {
    var set1, lits := Set(StorageKey(k.hash), Record(k)), LiteralOps(k, k.vaults);
    var globs := if HasGlob(k) then [Set(GlobIndexKey(k.id), Pointer(k.hash))] else [];
    var entries := EntryKeys(k.id, k.vaults);
    IndexKeysSplit(k);
    StorageKeyNotInIndex(k, k.hash);
    ApplyConcat(db, [set1] + lits, globs);
    ApplyConcat(db, [set1], lits);
    ApplyOne(db, set1);
    var db1 := ApplyOp(db, set1);
    LiteralOpsPut(db1, k, k.vaults);
    var db2 := PutAll(db1, entries, Pointer(k.hash));
    if HasGlob(k) {
      ApplyOne(db2, globs[0]);
    }
    AssembleInsert(db, k);
  }

  /** Record, literal entries and glob entry together make up the insertion. */
  lemma AssembleInsert(db: DB, k: APIKey)
    ensures var db2 := PutAll(db[StorageKey(k.hash) := Record(k)], EntryKeys(k.id, k.Scope()), Pointer(k.hash));
            (if HasGlob(k) then db2[GlobIndexKey(k.id) := Pointer(k.hash)] else db2) == Insert(db, k)
  {
    IndexKeysSplit(k);
    StorageKeyNotInIndex(k, k.hash);
    hide IndexKeys, EntryKeys, StorageKey, GlobIndexKey, HasGlob;
  }

  /** The single-vault batch does too, for a vault that is neither empty nor a glob. */
  lemma GenerateOpsInsert(db: DB, h: Hash, vault: Name, title: string, mode: string)
    requires vault != [] && !IsGlob(vault)
    ensures ApplyOps(db, GenerateOps(LegacyKey(h, vault, title, mode))) == Insert(db, LegacyKey(h, vault, title, mode))
  {
    var k := LegacyKey(h, vault, title, mode);
    StorageKeyNotInIndex(k, h);
    GenerateOpsEffect(db, k);
  }

  lemma GenerateOpsEffect(db: DB, k: APIKey)
    ensures ApplyOps(db, GenerateOps(k))
         == db[StorageKey(k.hash) := Record(k)][VaultIndexKey(k.vault, k.id) := Pointer(k.hash)]
  {
    var ops := GenerateOps(k);
    assert ops == [ops[0]] + [ops[1]];
    ApplyConcat(db, [ops[0]], [ops[1]]);
    ApplyOne(db, ops[0]);
    ApplyOne(ApplyOp(db, ops[0]), ops[1]);
  }

  /** The revocation batch deletes the record and every entry of its scope. */
  lemma RevokeOpsRemove(db: DB, k: APIKey, h: Hash)
    ensures ApplyOps(db, RevokeOps(k, h)) == Remove(db, k, h)
  {
    var del, lits := Delete(StorageKey(h)), UnindexOps(k, k.Scope());
    var globs := if HasGlob(k) then [Delete(GlobIndexKey(k.id))] else [];
    IndexKeysSplit(k);
    ApplyConcat(db, [del] + lits, globs);
    ApplyConcat(db, [del], lits);
    ApplyOne(db, del);
    UnindexOpsDelete(ApplyOp(db, del), k, k.Scope());
    if HasGlob(k) {
      ApplyOne(ApplyOp(db, del) - EntryKeys(k.id, k.Scope()), globs[0]);
    }
    DeleteInParts(db, StorageKey(h), EntryKeys(k.id, k.Scope()), if HasGlob(k) then {GlobIndexKey(k.id)} else {});
    hide IndexKeys, EntryKeys, StorageKey, GlobIndexKey, HasGlob, UnindexOps, ApplyOps;
  }

  lemma DeleteInParts(db: DB, b: Bytes, entries: set<Bytes>, globs: set<Bytes>)
    ensures db - {b} - entries - globs == db - ({b} + (entries + globs))
    ensures db - {b} - {} == db - {b}
  {
  }

  // ---------- What revocation finds ----------

  /** A key answers to a vault when the vault is one of its literals or it has a glob. */
  predicate Answers(k: APIKey, vault: Name) {
    vault in Literals(k) || HasGlob(k)
  }

  /** Records a revocation asks to remove. */
  function Revoked(recs: Records, vault: Name, id: Bytes): set<Hash> {
    set h | h in recs && recs[h].id == id && Answers(recs[h], vault)
  }

  lemma FindHashTruth(db: DB, recs: Records, vault: Name, id: KeyId)
    requires Represents(db, recs)
    ensures FindHash(db, vault, id).Some? ==> FindHash(db, vault, id).value in Revoked(recs, vault, id)
    ensures forall h | h in Revoked(recs, vault, id) :: FindHash(db, vault, id) == Some(h)
  {
    var v, g := VaultIndexKey(vault, id), GlobIndexKey(id);
    forall h | h in recs
      ensures v in IndexKeys(recs[h]) <==> id == recs[h].id && vault in Literals(recs[h])
      ensures g in IndexKeys(recs[h]) <==> id == recs[h].id && HasGlob(recs[h])
    {
      VaultKeyInIndex(recs[h], vault, id);
      GlobKeyInIndex(recs[h], id);
    }
    hide Represents, IndexKeys, Literals, HasGlob, Stores, IndexSound, IndexComplete;
  }

  /** Revoking succeeds exactly for a live key that answers to the vault; it removes
      that key's record and all its entries, and the store then holds the others. */
  lemma RevokeRepresents(db: DB, recs: Records, vault: Name, id: Bytes)
    requires Represents(db, recs)
    ensures Revocation(db, vault, id).Some? <==> Revoked(recs, vault, id) != {}
    ensures Revocation(db, vault, id).Some? ==>
              Represents(ApplyOps(db, Revocation(db, vault, id).value), recs - Revoked(recs, vault, id))
  {
    if |id| == KEY_ID_LENGTH {
      FindHashTruth(db, recs, vault, id);
      var f := FindHash(db, vault, id);
      if f.Some? {
        var h := f.value;
        assert Revoked(recs, vault, id) == {h};
        assert recs[h].(id := id) == recs[h];
        RevokeOpsRemove(db, recs[h], h);
        RemoveRepresents(db, recs, h);
      }
    } else {
      hide Answers, Stores, IndexSound, IndexComplete;
      assert Revoked(recs, vault, id) == {};
    }
  }

  /** Everything else is left as it was, and nothing leads to the removed key. */
  lemma RevokeIsExact(db: DB, recs: Records, vault: Name, id: Bytes)
    requires Represents(db, recs) && Revocation(db, vault, id).Some?
    ensures var db' := ApplyOps(db, Revocation(db, vault, id).value);
            exists h :: h in recs && recs[h].id == id && Answers(recs[h], vault)
              && db' == db - ({StorageKey(h)} + IndexKeys(recs[h]))
              && forall b | b in db' && IsIndexKey(b) :: db'[b] != Pointer(h)
  {
    RevokeRepresents(db, recs, vault, id);
    FindHashTruth(db, recs, vault, id);
    var h := FindHash(db, vault, id).value;
    assert recs[h].(id := id) == recs[h];
    RevokeOpsRemove(db, recs[h], h);
    NothingLeadsThere(ApplyOps(db, Revocation(db, vault, id).value), recs - Revoked(recs, vault, id), h);
  }

  lemma NothingLeadsThere(db: DB, recs: Records, h: Hash)
    requires Represents(db, recs) && h !in recs
    ensures forall b | b in db && IsIndexKey(b) :: db[b] != Pointer(h)
  {
  }
}
