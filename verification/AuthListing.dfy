/** Listing a vault's keys: what the two range scans reach, and when that is exactly the
    live keys whose scope covers the vault. */
module AuthListing {

  import opened Common
  import opened AuthKeys
  import opened AuthStore
  import opened AuthBatches

  /** The entry leads to this record. */
  predicate LeadsTo(db: DB, b: Bytes, k: APIKey) {
    b in db && Target(db[b]).Some? && Fetch(db, Target(db[b]).value) == Some(k)
  }

  predicate InVaultScan(b: Bytes, vault: Name) {
    InScan(b, VaultIndexPrefix(vault), UpperBound(VaultIndexPrefix(vault)))
  }

  predicate InGlobScan(b: Bytes) {
    InScan(b, [PREFIX_GLOB_INDEX], [PREFIX_GLOB_INDEX + 1])
  }

  ghost predicate Reachable(db: DB, vault: Name, k: APIKey) {
    || (exists b :: InVaultScan(b, vault) && LeadsTo(db, b, k))
    || (ScopeMatch(k.Scope(), vault) && exists b :: InGlobScan(b) && LeadsTo(db, b, k))
  }

  /** A listing: reachable records, ids not repeated, no reachable id missing. */
  ghost predicate Lists(db: DB, vault: Name, keys: seq<APIKey>) {
    && (forall i | 0 <= i < |keys| :: Reachable(db, vault, keys[i]))
    && (forall i, j | 0 <= i < j < |keys| :: keys[i].id != keys[j].id)
    && (forall k | Reachable(db, vault, k) :: HasId(keys, k.id))
  }

  predicate HasId(keys: seq<APIKey>, id: KeyId) {
    exists i :: 0 <= i < |keys| && keys[i].id == id
  }

  ghost predicate Live(recs: Records, k: APIKey) {
    exists h :: h in recs && recs[h] == k
  }

  /** The vault's scan prefix runs into an entry of another of the key's vaults: the name
      is that vault's, a NUL and the beginning of the key's id. */
  ghost predicate Strays(k: APIKey, vault: Name) {
    exists w :: w in Literals(k) && w != vault && VaultIndexPrefix(vault) <= VaultIndexKey(w, k.id)
  }

  /** Reaching means being live and covering the vault. */
  ghost predicate ReachesExactly(db: DB, recs: Records, vault: Name) {
    forall k :: Reachable(db, vault, k) <==> Live(recs, k) && ScopeMatch(k.Scope(), vault)
  }

  // ---------- Collecting a listing ----------

  /** Keys collected so far, and the ids they bear. */
  ghost predicate Collected(db: DB, vault: Name, keys: seq<APIKey>, seen: set<KeyId>) {
    && (forall i | 0 <= i < |keys| :: Reachable(db, vault, keys[i]) && keys[i].id in seen)
    && (forall i, j | 0 <= i < j < |keys| :: keys[i].id != keys[j].id)
    && (forall id | id in seen :: HasId(keys, id))
  }

  lemma VaultEntryReaches(db: DB, vault: Name, b: Bytes, k: APIKey)
    requires InVaultScan(b, vault) && LeadsTo(db, b, k)
    ensures Reachable(db, vault, k)
  {
  }

  lemma GlobEntryReaches(db: DB, vault: Name, b: Bytes, k: APIKey)
    requires InGlobScan(b) && LeadsTo(db, b, k) && ScopeMatch(k.Scope(), vault)
    ensures Reachable(db, vault, k)
  {
  }

  lemma NothingCollected(db: DB, vault: Name)
    ensures Collected(db, vault, [], {})
  {
  }

  lemma CollectOne(db: DB, vault: Name, keys: seq<APIKey>, seen: set<KeyId>, k: APIKey)
    requires Collected(db, vault, keys, seen) && Reachable(db, vault, k) && k.id !in seen
    ensures Collected(db, vault, keys + [k], seen + {k.id})
  {
    hide Reachable;
    var more := keys + [k];
    assert more[|keys|] == k && forall i | 0 <= i < |keys| :: more[i] == keys[i];
    forall id | id in seen
      ensures HasId(more, id)
    {
      var i :| 0 <= i < |keys| && keys[i].id == id;
      assert more[i].id == id;
    }
  }

  lemma CollectedAll(db: DB, vault: Name, keys: seq<APIKey>, seen: set<KeyId>)
    requires Collected(db, vault, keys, seen)
    requires forall b, k | InVaultScan(b, vault) && LeadsTo(db, b, k) :: k.id in seen
    requires forall b, k | InGlobScan(b) && LeadsTo(db, b, k) && ScopeMatch(k.Scope(), vault) :: k.id in seen
    ensures Lists(db, vault, keys)
  {
  }

  // ---------- Exactness ----------

  lemma GlobScanIsPrefix(b: Bytes)
    ensures InGlobScan(b) <==> b != [] && b[0] == PREFIX_GLOB_INDEX
  {
    var p := [PREFIX_GLOB_INDEX];
    assert UpperBound(p) == [PREFIX_GLOB_INDEX + 1];
    ScanIsPrefix(b, p);
  }

  lemma VaultScanKind(b: Bytes, vault: Name)
    ensures InVaultScan(b, vault) <==> VaultIndexPrefix(vault) <= b
    ensures InVaultScan(b, vault) ==> b != [] && b[0] == PREFIX_VAULT_INDEX
  {
    ScanIsPrefix(b, VaultIndexPrefix(vault));
  }

  lemma ScopeCases(k: APIKey, vault: Name)
    ensures vault in Literals(k) ==> ScopeMatch(k.Scope(), vault)
    ensures ScopeMatch(k.Scope(), vault) ==> vault in Literals(k) || HasGlob(k)
  {
    ScopeMatchIsCover(k.Scope(), vault);
    if vault in Literals(k) {
      var i :| 0 <= i < |k.Scope()| && k.Scope()[i] == vault;
      assert Covers(k.Scope()[i], vault);
    }
  }

  lemma LeadsToLive(db: DB, recs: Records, b: Bytes, k: APIKey)
    requires Represents(db, recs) && LeadsTo(db, b, k)
    ensures Live(recs, k)
    ensures IsIndexKey(b) ==> b in IndexKeys(k)
  {
  }

  lemma LiveIsLedTo(db: DB, recs: Records, b: Bytes, k: APIKey)
    requires Represents(db, recs) && Live(recs, k) && b in IndexKeys(k)
    ensures LeadsTo(db, b, k)
  {
    var h :| h in recs && recs[h] == k;
    IndexKeyKinds(k, b);
  }

  lemma LiveLiterals(db: DB, recs: Records, k: APIKey, v: Name)
    requires Represents(db, recs) && Live(recs, k) && v in Literals(k)
    ensures NulFree(v)
  {
    hide Literals;
    var h :| h in recs && recs[h] == k;
    assert IsLiteral(v);
  }

  lemma ReachableIsLive(db: DB, recs: Records, vault: Name, k: APIKey)
    requires Represents(db, recs) && Reachable(db, vault, k)
    ensures Live(recs, k) && (ScopeMatch(k.Scope(), vault) || Strays(k, vault))
  {
    hide Represents, InVaultScan, InGlobScan, LeadsTo, Literals, IndexKeys;
    if b :| InVaultScan(b, vault) && LeadsTo(db, b, k) {
      VaultScanKind(b, vault);
      LeadsToLive(db, recs, b, k);
      IndexKeyKinds(k, b);
      var w :| w in Literals(k) && b == VaultIndexKey(w, k.id);
      ScopeCases(k, vault);
    } else {
      var b :| InGlobScan(b) && LeadsTo(db, b, k);
      LeadsToLive(db, recs, b, k);
    }
  }

  lemma StrayIsReachable(db: DB, recs: Records, vault: Name, k: APIKey)
    requires Represents(db, recs) && Live(recs, k) && Strays(k, vault)
    ensures Reachable(db, vault, k)
  {
    hide Represents, InVaultScan, InGlobScan, LeadsTo, Literals, IndexKeys;
    var w :| w in Literals(k) && w != vault && VaultIndexPrefix(vault) <= VaultIndexKey(w, k.id);
    var b := VaultIndexKey(w, k.id);
    VaultKeyInIndex(k, w, k.id);
    VaultScanKind(b, vault);
    LiveIsLedTo(db, recs, b, k);
  }

  /** Only a name with a NUL in it strays. */
  lemma NulFreeNeverStrays(db: DB, recs: Records, vault: Name, k: APIKey)
    requires Represents(db, recs) && Live(recs, k) && NulFree(vault)
    ensures !Strays(k, vault)
  {
    hide Represents, Literals;
    forall w | w in Literals(k) && VaultIndexPrefix(vault) <= VaultIndexKey(w, k.id)
      ensures w == vault
    {
      LiveLiterals(db, recs, k, w);
      VaultScanKind(VaultIndexKey(w, k.id), vault);
      ScanNames(vault, w, k.id);
    }
  }

  lemma ScanNames(v: Name, w: Name, id: KeyId)
    requires NulFree(v) && NulFree(w)
    ensures InVaultScan(VaultIndexKey(w, id), v) <==> v == w
  {
    VaultScanIsExact(v, w, id);
  }

  lemma LiveIsReachable(db: DB, recs: Records, vault: Name, k: APIKey)
    requires Represents(db, recs) && Live(recs, k) && ScopeMatch(k.Scope(), vault)
    ensures Reachable(db, vault, k)
  {
    hide Represents, InVaultScan, InGlobScan, LeadsTo, Literals, IndexKeys;
    ScopeCases(k, vault);
    if vault in Literals(k) {
      var b := VaultIndexKey(vault, k.id);
      VaultKeyInIndex(k, vault, k.id);
      VaultScanKind(b, vault);
      assert b == VaultIndexPrefix(vault) + k.id;
      LiveIsLedTo(db, recs, b, k);
    } else {
      var b := GlobIndexKey(k.id);
      GlobKeyInIndex(k, k.id);
      GlobScanIsPrefix(b);
      LiveIsLedTo(db, recs, b, k);
    }
  }

  /** For a store in order and every vault name, the scans reach exactly the live keys
      that cover the vault or stray into its scan. */
  lemma ScansReach(db: DB, recs: Records, vault: Name, k: APIKey)
    requires Represents(db, recs)
    ensures Reachable(db, vault, k) <==> Live(recs, k) && (ScopeMatch(k.Scope(), vault) || Strays(k, vault))
  {
    hide Represents, Reachable, ScopeMatch, Strays;
    if Reachable(db, vault, k) {
      ReachableIsLive(db, recs, vault, k);
    }
    if Live(recs, k) && ScopeMatch(k.Scope(), vault) {
      LiveIsReachable(db, recs, vault, k);
    }
    if Live(recs, k) && Strays(k, vault) {
      StrayIsReachable(db, recs, vault, k);
    }
  }

  /** So they are exact if and only if no live key strays without covering the vault; and
      always for a NUL-free name. */
  lemma ScansAreExact(db: DB, recs: Records, vault: Name)
    requires Represents(db, recs)
    ensures ReachesExactly(db, recs, vault) <==>
            forall k | Live(recs, k) && Strays(k, vault) :: ScopeMatch(k.Scope(), vault)
    ensures NulFree(vault) ==> ReachesExactly(db, recs, vault)
  {
    hide Represents, Reachable, ScopeMatch, Strays;
    forall k
      ensures Reachable(db, vault, k) <==> Live(recs, k) && (ScopeMatch(k.Scope(), vault) || Strays(k, vault))
      ensures NulFree(vault) && Live(recs, k) ==> !Strays(k, vault)
    {
      ScansReach(db, recs, vault, k);
      if NulFree(vault) && Live(recs, k) {
        NulFreeNeverStrays(db, recs, vault, k);
      }
    }
  }

  /** Any listing holds exactly the reached keys, each once: those covering the vault and
      those that stray; none strays for a NUL-free name. */
  lemma ListingIsExact(db: DB, recs: Records, vault: Name, keys: seq<APIKey>)
    requires Represents(db, recs) && Lists(db, vault, keys)
    ensures forall k :: k in keys <==> Live(recs, k) && (ScopeMatch(k.Scope(), vault) || Strays(k, vault))
    ensures NulFree(vault) ==> forall k :: k in keys <==> Live(recs, k) && ScopeMatch(k.Scope(), vault)
    ensures forall i, j | 0 <= i < j < |keys| :: keys[i] != keys[j]
  {
    hide Represents, Reachable, ScopeMatch, Strays;
    forall k
      ensures k in keys <==> Live(recs, k) && (ScopeMatch(k.Scope(), vault) || Strays(k, vault))
      ensures NulFree(vault) && Live(recs, k) ==> !Strays(k, vault)
    {
      ScansReach(db, recs, vault, k);
      if NulFree(vault) && Live(recs, k) {
        NulFreeNeverStrays(db, recs, vault, k);
      }
      if Reachable(db, vault, k) {
        var i :| 0 <= i < |keys| && keys[i].id == k.id;
        ScansReach(db, recs, vault, keys[i]);
        SameIdSameKey(db, recs, keys[i], k);
      }
    }
  }

  lemma SameIdSameKey(db: DB, recs: Records, k: APIKey, l: APIKey)
    requires Represents(db, recs) && Live(recs, k) && Live(recs, l) && k.id == l.id
    ensures k == l
  {
  }

  // ---------- The order of a listing ----------

  ghost predicate Ascending(bs: seq<Bytes>) {
    forall i, j | 0 <= i < j < |bs| :: Less(bs[i], bs[j])
  }

  /** The index entries behind a listing: the vault's own in byte order, then globs in
      byte order. */
  ghost predicate Sources(db: DB, vault: Name, keys: seq<APIKey>, own: seq<Bytes>, globs: seq<Bytes>) {
    && |keys| == |own| + |globs| && Ascending(own) && Ascending(globs)
    && (forall i | 0 <= i < |own| :: InVaultScan(own[i], vault) && LeadsTo(db, own[i], keys[i]))
    && (forall i | 0 <= i < |globs| :: InGlobScan(globs[i]) && LeadsTo(db, globs[i], keys[|own| + i]))
  }

  ghost predicate Before(bs: seq<Bytes>, todo: set<Bytes>) {
    forall i, b | 0 <= i < |bs| && b in todo :: Less(bs[i], b)
  }

  predicate IsLeast(b: Bytes, todo: set<Bytes>) {
    b in todo && forall x | x in todo :: x == b || Less(b, x)
  }

  lemma {:induction false} LeastExists(todo: set<Bytes>) returns (b: Bytes)
    requires todo != {}
    ensures IsLeast(b, todo)
  {
    var some :| some in todo;
    var rest := todo - {some};
    if rest == {} {
      b := some;
      assert todo == {some};
    } else {
      var c := LeastExists(rest);
      LessTotal(some, c);
      b := if Less(some, c) then some else c;
      forall x | x in todo
        ensures x == b || Less(b, x)
      {
        if b == some && x in rest && x != c {
          LessTransitive(some, c, x);
        }
      }
    }
  }

  /** Visiting the least entry keeps what is listed before what is to come. */
  lemma LeastNext(bs: seq<Bytes>, todo: set<Bytes>, b: Bytes)
    requires Ascending(bs) && Before(bs, todo) && IsLeast(b, todo)
    ensures Before(bs, todo - {b}) && Ascending(bs + [b]) && Before(bs + [b], todo - {b})
  {
  }

  lemma {:induction false} LessAfterPrefix(p: Bytes, x: Bytes, y: Bytes)
    ensures Less(p + x, p + y) <==> Less(x, y)
  {
    if p == [] {
      assert p + x == x && p + y == y;
    } else {
      assert (p + x)[1..] == p[1..] + x && (p + y)[1..] == p[1..] + y;
      LessAfterPrefix(p[1..], x, y);
    }
  }

  lemma OwnEntry(db: DB, recs: Records, vault: Name, b: Bytes, k: APIKey)
    requires Represents(db, recs) && NulFree(vault) && InVaultScan(b, vault) && LeadsTo(db, b, k)
    ensures b == VaultIndexPrefix(vault) + k.id && vault in Literals(k)
  {
    hide Represents, InVaultScan, LeadsTo, Literals, IndexKeys;
    VaultScanKind(b, vault);
    LeadsToLive(db, recs, b, k);
    IndexKeyKinds(k, b);
    var w :| w in Literals(k) && b == VaultIndexKey(w, k.id);
    LiveLiterals(db, recs, k, w);
    ScanNames(vault, w, k.id);
  }

  lemma GlobEntry(db: DB, recs: Records, b: Bytes, k: APIKey)
    requires Represents(db, recs) && InGlobScan(b) && LeadsTo(db, b, k)
    ensures b == [PREFIX_GLOB_INDEX] + k.id
  {
    hide Represents, InGlobScan, LeadsTo, Literals, IndexKeys;
    GlobScanIsPrefix(b);
    LeadsToLive(db, recs, b, k);
    IndexKeyKinds(k, b);
  }

  /** A listing shows the keys that name the vault, by id, and then the other keys that
      cover it, by id. */
  lemma ListingIsOrdered(db: DB, recs: Records, vault: Name, keys: seq<APIKey>, own: seq<Bytes>, globs: seq<Bytes>)
    requires Represents(db, recs) && NulFree(vault) && Sources(db, vault, keys, own, globs)
    ensures forall i | 0 <= i < |own| :: vault in Literals(keys[i])
    ensures forall i, j | 0 <= i < j < |own| :: Less(keys[i].id, keys[j].id)
    ensures forall i, j | |own| <= i < j < |keys| :: Less(keys[i].id, keys[j].id)
  {
    hide Represents, InVaultScan, InGlobScan, LeadsTo, Literals;
    var p, q := VaultIndexPrefix(vault), [PREFIX_GLOB_INDEX];
    forall i | 0 <= i < |own|
      ensures own[i] == p + keys[i].id && vault in Literals(keys[i])
    {
      OwnEntry(db, recs, vault, own[i], keys[i]);
    }
    forall i | 0 <= i < |globs|
      ensures globs[i] == q + keys[|own| + i].id
    {
      GlobEntry(db, recs, globs[i], keys[|own| + i]);
    }
    hide VaultIndexPrefix;
    forall i, j | 0 <= i < j < |own|
      ensures Less(keys[i].id, keys[j].id)
    {
      LessAfterPrefix(p, keys[i].id, keys[j].id);
    }
    forall i, j | |own| <= i < j < |keys|
      ensures Less(keys[i].id, keys[j].id)
    {
      assert Less(globs[i - |own|], globs[j - |own|]);
      LessAfterPrefix(q, keys[i].id, keys[j].id);
    }
  }

  // ---------- Minting for an arbitrary vault name ----------

  /** Unused hash and id, whatever the scope. */
  ghost predicate Unused(recs: Records, h: Hash) {
    h !in recs && forall g | g in recs :: recs[g].id != IdOf(h)
  }

  /** The longest NUL-free prefix. */
  function NulFreePrefix(v: Name): (r: Name)
    ensures NulFree(r) && r <= v
    ensures r == v || r + [0] <= v
  {
    if v == [] || v[0] == 0 then []
    else
      var rest := NulFreePrefix(v[1..]);
      assert v == [v[0]] + v[1..];
      [v[0]] + rest
  }

  lemma MintedIsReachable(db: DB, h: Hash, vault: Name, title: string, mode: string)
    ensures var k := LegacyKey(h, vault, title, mode);
            Reachable(ApplyOps(db, GenerateOps(k)), NulFreePrefix(vault), k)
  {
    var k := LegacyKey(h, vault, title, mode);
    var db' := ApplyOps(db, GenerateOps(k));
    var b, v := VaultIndexKey(vault, k.id), NulFreePrefix(vault);
    GenerateOpsEffect(db, k);
    assert IsIndexKey(b);
    assert LeadsTo(db', b, k);
    VaultScanKind(b, v);
  }

  /** A lone glob entry is listed for its own text, not for a longer name it covers. */
  lemma MintedGlobIsMissed(db: DB, recs: Records, h: Hash, vault: Name, title: string, mode: string)
    requires Represents(db, recs) && Unused(recs, h) && IsGlob(vault) && NulFree(vault)
    ensures var k, v := LegacyKey(h, vault, title, mode), vault + [97];
            ScopeMatch(k.Scope(), v) && !Reachable(ApplyOps(db, GenerateOps(k)), v, k)
  {
    var k, v := LegacyKey(h, vault, title, mode), vault + [97];
    var db' := ApplyOps(db, GenerateOps(k));
    assert k.Scope() == [vault];
    assert ScopeMatch(k.Scope(), v);
    GenerateOpsEffect(db, k);
    forall b | LeadsTo(db', b, k)
      ensures !InVaultScan(b, v) && !InGlobScan(b)
    {
      VaultScanKind(b, v);
      GlobScanIsPrefix(b);
      if IsIndexKey(b) {
        ScanNames(v, vault, k.id);
      }
    }
  }

  lemma SingleScope(entry: Name, vault: Name)
    ensures ScopeMatch([entry], vault) <==> Covers(entry, vault)
  {
  }

  lemma NulCoversNoName(entry: Name, v: Name)
    requires NulFree(v) && !NulFree(entry)
    ensures !Covers(entry, v)
  {
  }

  /** A name with a NUL in it does not cover what comes before that NUL. */
  lemma PrefixNotCovered(h: Hash, vault: Name, title: string, mode: string)
    requires vault == [] || !NulFree(vault)
    ensures !ScopeMatch(LegacyKey(h, vault, title, mode).Scope(), NulFreePrefix(vault))
  {
    hide Covers, NulFreePrefix, NulFree;
    if vault != [] {
      SingleScope(vault, NulFreePrefix(vault));
      NulCoversNoName(vault, NulFreePrefix(vault));
    }
  }

  /** Minting a single-vault key keeps every listing exact if and only if the vault is a
      non-empty, NUL-free name that does not end in a star. The name is not validated. */
  lemma MintingIsExact(db: DB, recs: Records, h: Hash, vault: Name, title: string, mode: string)
    requires Represents(db, recs) && Unused(recs, h)
    ensures var k := LegacyKey(h, vault, title, mode);
            (forall v | NulFree(v) :: ReachesExactly(ApplyOps(db, GenerateOps(k)), recs[h := k], v)) <==>
            IsLiteral(vault)
  {
    var k := LegacyKey(h, vault, title, mode);
    var db', recs' := ApplyOps(db, GenerateOps(k)), recs[h := k];
    if IsLiteral(vault) {
      LegacyIsFresh(recs, h, vault, title, mode);
      GenerateOpsInsert(db, h, vault, title, mode);
      InsertRepresents(db, recs, k);
      forall v | NulFree(v)
        ensures ReachesExactly(db', recs', v)
      {
        ScansAreExact(db', recs', v);
      }
    } else if IsGlob(vault) && NulFree(vault) {
      MintedGlobIsMissed(db, recs, h, vault, title, mode);
      assert recs'[h] == k && NulFree(vault + [97]);
      assert !ReachesExactly(db', recs', vault + [97]);
    } else {
      MintedIsReachable(db, h, vault, title, mode);
      PrefixNotCovered(h, vault, title, mode);
      assert !ReachesExactly(db', recs', NulFreePrefix(vault));
    }
  }

  lemma LegacyIsFresh(recs: Records, h: Hash, vault: Name, title: string, mode: string)
    requires Unused(recs, h) && IsLiteral(vault)
    ensures Fresh(recs, LegacyKey(h, vault, title, mode))
  {
  }

  lemma ScopedIsFresh(recs: Records, h: Hash, scope: seq<Name>, title: string, mode: string, allowAll: bool)
    requires Unused(recs, h) && ValidScope(scope, allowAll)
    ensures Fresh(recs, ScopedKey(h, scope, title, mode))
  {
  }
}
