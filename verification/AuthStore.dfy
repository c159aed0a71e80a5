/** API keys in the auth store: records, a per-vault index and a glob index, written and
    removed together. The keyspace refines a plain map from storage hash to key. */
module AuthStore {

  import opened Common
  import opened AuthKeys

  datatype APIKey = APIKey(id: KeyId, hash: Hash, vault: Name, vaults: seq<Name>, title: string, mode: string) {
    /** Vaults if set, otherwise the legacy single vault. */
    function Scope(): seq<Name> {
      if vaults != [] then vaults else if vault != [] then [vault] else []
    }
  }

  datatype VaultConfig = VaultConfig(name: Name, isPublic: bool, body: string)

  datatype Value = Record(key: APIKey) | Pointer(hash: Hash) | Config(cfg: VaultConfig) | Other(data: Bytes)

  type DB = map<Bytes, Value>

  function IdOf(h: Hash): KeyId {
    h[..KEY_ID_LENGTH]
  }

  function LiteralsIn(scope: seq<Name>): set<Name> {
    set e | e in scope && !IsGlob(e)
  }

  function Literals(k: APIKey): set<Name> {
    LiteralsIn(k.Scope())
  }

  predicate HasGlob(k: APIKey) {
    exists i :: 0 <= i < |k.Scope()| && IsGlob(k.Scope()[i])
  }

  /** Every index entry a key should have. */
  function IndexKeys(k: APIKey): set<Bytes> {
    (set v | v in Literals(k) :: VaultIndexKey(v, k.id)) + if HasGlob(k) then {GlobIndexKey(k.id)} else {}
  }

  // ---------- Batches ----------

  datatype BatchOp = Set(k: Bytes, v: Value) | Delete(k: Bytes)

  function ApplyOp(db: DB, op: BatchOp): DB {
    match op
    case Set(k, v) => db[k := v]
    case Delete(k) => db - {k}
  }

  function ApplyOps(db: DB, ops: seq<BatchOp>): DB {
    if ops == [] then db else ApplyOp(ApplyOps(db, ops[..|ops| - 1]), ops[|ops| - 1])
  }

  function LegacyKey(h: Hash, vault: Name, title: string, mode: string): APIKey {
    APIKey(IdOf(h), h, vault, [], title, mode)
  }

  function ScopedKey(h: Hash, scope: seq<Name>, title: string, mode: string): APIKey {
    var vault := if scope != [] && !IsGlob(scope[0]) then scope[0] else [];
    APIKey(IdOf(h), h, vault, scope, title, mode)
  }

  function GenerateOps(k: APIKey): seq<BatchOp> {
    [Set(StorageKey(k.hash), Record(k)), Set(VaultIndexKey(k.vault, k.id), Pointer(k.hash))]
  }

  /** One index entry per literal, repeated literals skipped. */
  function LiteralOps(k: APIKey, scope: seq<Name>): seq<BatchOp> {
    if scope == [] then []
    else
      var init, e := scope[..|scope| - 1], scope[|scope| - 1];
      LiteralOps(k, init) + if IsGlob(e) || e in init then [] else [Set(VaultIndexKey(e, k.id), Pointer(k.hash))]
  }

  function ScopedOps(k: APIKey): seq<BatchOp> {
    [Set(StorageKey(k.hash), Record(k))] + LiteralOps(k, k.vaults) +
    if HasGlob(k) then [Set(GlobIndexKey(k.id), Pointer(k.hash))] else []
  }

  function UnindexOps(k: APIKey, scope: seq<Name>): seq<BatchOp> {
    if scope == [] then []
    else
      var init, e := scope[..|scope| - 1], scope[|scope| - 1];
      UnindexOps(k, init) + if IsGlob(e) then [] else [Delete(VaultIndexKey(e, k.id))]
  }

  function RevokeOps(k: APIKey, h: Hash): seq<BatchOp> {
    [Delete(StorageKey(h))] + UnindexOps(k, k.Scope()) + if HasGlob(k) then [Delete(GlobIndexKey(k.id))] else []
  }

  function Fetch(db: DB, h: Hash): Option<APIKey> {
    var k := StorageKey(h);
    if k in db && db[k].Record? then Some(db[k].key) else None
  }

  /** Where an index entry leads. */
  function Target(v: Value): Option<Hash> {
    if v.Pointer? then Some(v.hash) else None
  }

  /** The storage hash behind a display id: the vault's index first, then the glob
      index. */
  function FindHash(db: DB, vault: Name, id: KeyId): Option<Hash> {
    var v, g := VaultIndexKey(vault, id), GlobIndexKey(id);
    if v in db then Target(db[v]) else if g in db then Target(db[g]) else None
  }

  /** The batch of a revocation, or None for "key not found". */
  function Revocation(db: DB, vault: Name, id: Bytes): Option<seq<BatchOp>> {
    if |id| != KEY_ID_LENGTH then None
    else
      match FindHash(db, vault, id)
      case None => None
      case Some(h) =>
        match Fetch(db, h)
        case None => None
        case Some(k) => Some(RevokeOps(k.(id := id), h))
  }

  // ---------- The abstract store ----------

  type Records = map<Hash, APIKey>

  /** Records file under their own hash and id; ids differ; literal entries can be
      indexed. */
  ghost predicate ValidRecords(recs: Records) {
    && (forall h | h in recs :: recs[h].hash == h && recs[h].id == IdOf(h))
    && (forall g, h | g in recs && h in recs && recs[g].id == recs[h].id :: g == h)
    && (forall h, v | h in recs && v in Literals(recs[h]) :: IsLiteral(v))
  }

  predicate IsIndexKey(b: Bytes) {
    b != [] && (b[0] == PREFIX_VAULT_INDEX || b[0] == PREFIX_GLOB_INDEX)
  }

  /** Every index entry leads to a record whose scope holds that entry. */
  ghost predicate IndexSound(db: DB, recs: Records) {
    forall b | b in db && IsIndexKey(b) :: db[b].Pointer? && db[b].hash in recs && b in IndexKeys(recs[db[b].hash])
  }

  /** Every entry a record should have is there and leads to it. */
  ghost predicate IndexComplete(db: DB, recs: Records) {
    forall h, b | h in recs && b in IndexKeys(recs[h]) :: b in db && db[b] == Pointer(h)
  }

  /** The store holds exactly these records. */
  ghost predicate Stores(db: DB, recs: Records) {
    forall h: Hash :: (StorageKey(h) in db <==> h in recs) && (h in recs ==> db[StorageKey(h)] == Record(recs[h]))
  }

  ghost predicate Represents(db: DB, recs: Records) {
    ValidRecords(recs) && Stores(db, recs) && IndexSound(db, recs) && IndexComplete(db, recs)
  }

  function Insert(db: DB, k: APIKey): DB {
    map b | b in db.Keys + {StorageKey(k.hash)} + IndexKeys(k) ::
      if b == StorageKey(k.hash) then Record(k) else if b in IndexKeys(k) then Pointer(k.hash) else db[b]
  }

  function Remove(db: DB, k: APIKey, h: Hash): DB {
    db - ({StorageKey(h)} + IndexKeys(k))
  }

  // ---------- Which entries a key has ----------

  lemma IndexKeyKinds(k: APIKey, b: Bytes)
    requires b in IndexKeys(k)
    ensures IsIndexKey(b)
    ensures b[0] == PREFIX_VAULT_INDEX ==> exists v :: v in Literals(k) && b == VaultIndexKey(v, k.id)
    ensures b[0] == PREFIX_GLOB_INDEX ==> HasGlob(k) && b == GlobIndexKey(k.id)
  {
  }

  /** A vault entry is a key's own exactly when it bears its id and one of its literals. */
  lemma VaultKeyInIndex(k: APIKey, v: Name, id: KeyId)
    ensures VaultIndexKey(v, id) in IndexKeys(k) <==> id == k.id && v in Literals(k)
  {
    if VaultIndexKey(v, id) in IndexKeys(k) {
      IndexKeyKinds(k, VaultIndexKey(v, id));
      var w :| w in Literals(k) && VaultIndexKey(v, id) == VaultIndexKey(w, k.id);
      VaultIndexKeyInjective(v, id, w, k.id);
    }
  }

  lemma GlobKeyInIndex(k: APIKey, id: KeyId)
    ensures GlobIndexKey(id) in IndexKeys(k) <==> id == k.id && HasGlob(k)
  {
    if GlobIndexKey(id) in IndexKeys(k) {
      IndexKeyKinds(k, GlobIndexKey(id));
      GlobIndexKeyInjective(id, k.id);
    }
  }

  /** Different ids have disjoint index entries. */
  lemma IndexKeysApart(k: APIKey, l: APIKey, b: Bytes)
    requires k.id != l.id && b in IndexKeys(k)
    ensures b !in IndexKeys(l)
  {
    IndexKeyKinds(k, b);
    if b[0] == PREFIX_VAULT_INDEX {
      var v :| v in Literals(k) && b == VaultIndexKey(v, k.id);
      VaultKeyInIndex(l, v, k.id);
    } else {
      GlobKeyInIndex(l, k.id);
    }
  }

  lemma StorageKeyNotInIndex(k: APIKey, h: Hash)
    ensures StorageKey(h) !in IndexKeys(k)
  {
    if StorageKey(h) in IndexKeys(k) {
      IndexKeyKinds(k, StorageKey(h));
    }
  }

  // ---------- Inserting ----------

  /** A key that may be added: unused hash and id, indexable literals. */
  ghost predicate Fresh(recs: Records, k: APIKey) {
    && k.hash !in recs && k.id == IdOf(k.hash)
    && (forall h | h in recs :: recs[h].id != k.id)
    && (forall v | v in Literals(k) :: IsLiteral(v))
  }

  lemma InsertStores(db: DB, recs: Records, k: APIKey)
    requires Stores(db, recs)
    ensures Stores(Insert(db, k), recs[k.hash := k])
  {
    hide IndexKeys, StorageKey;
    forall h: Hash
      ensures (StorageKey(h) in Insert(db, k) <==> h in recs[k.hash := k])
      ensures h in recs[k.hash := k] ==> Insert(db, k)[StorageKey(h)] == Record(recs[k.hash := k][h])
    {
      StorageKeyNotInIndex(k, h);
      if h != k.hash && StorageKey(h) == StorageKey(k.hash) {
        StorageKeyInjective(h, k.hash);
      }
    }
  }

  lemma InsertSound(db: DB, recs: Records, k: APIKey)
    requires IndexSound(db, recs) && Fresh(recs, k)
    ensures IndexSound(Insert(db, k), recs[k.hash := k])
  {
  }

  lemma InsertComplete(db: DB, recs: Records, k: APIKey)
    requires IndexComplete(db, recs) && Fresh(recs, k)
    ensures IndexComplete(Insert(db, k), recs[k.hash := k])
  {
    hide IndexKeys, StorageKey, IsIndexKey;
    var db', recs' := Insert(db, k), recs[k.hash := k];
    forall h, b | h in recs' && b in IndexKeys(recs'[h])
      ensures b in db' && db'[b] == Pointer(h)
    {
      StorageKeyNotInIndex(recs'[h], k.hash);
      if h != k.hash {
        IndexKeysApart(recs[h], k, b);
      }
    }
  }

  /** Writing a fresh key with all its entries adds exactly that key. */
  lemma InsertRepresents(db: DB, recs: Records, k: APIKey)
    requires Represents(db, recs) && Fresh(recs, k)
    ensures Represents(Insert(db, k), recs[k.hash := k])
  {
    InsertStores(db, recs, k);
    InsertSound(db, recs, k);
    InsertComplete(db, recs, k);
    hide Stores, IndexSound, IndexComplete, Insert, Literals;
  }

  // ---------- Removing ----------

  lemma RemoveStores(db: DB, recs: Records, h: Hash)
    requires Stores(db, recs) && h in recs
    ensures Stores(Remove(db, recs[h], h), recs - {h})
  {
    hide IndexKeys, StorageKey;
    forall g: Hash
      ensures StorageKey(g) in Remove(db, recs[h], h) <==> g in recs - {h}
    {
      StorageKeyNotInIndex(recs[h], g);
      if g != h && StorageKey(g) == StorageKey(h) {
        StorageKeyInjective(g, h);
      }
    }
  }

  lemma RemoveComplete(db: DB, recs: Records, h: Hash)
    requires IndexComplete(db, recs) && ValidRecords(recs) && h in recs
    ensures IndexComplete(Remove(db, recs[h], h), recs - {h})
  {
    hide IndexKeys, StorageKey, IsIndexKey, Literals;
    forall g, b | g in recs - {h} && b in IndexKeys(recs[g])
      ensures b in Remove(db, recs[h], h)
    {
      IndexKeysApart(recs[g], recs[h], b);
      StorageKeyNotInIndex(recs[g], h);
    }
  }

  /** Deleting a key with all its entries removes exactly that key. */
  lemma RemoveRepresents(db: DB, recs: Records, h: Hash)
    requires Represents(db, recs) && h in recs
    ensures Represents(Remove(db, recs[h], h), recs - {h})
  {
    RemoveStores(db, recs, h);
    RemoveComplete(db, recs, h);
    hide Stores, IndexSound, IndexComplete, Remove, Literals;
  }
}
