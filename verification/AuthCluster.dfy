/** The auth store of a cluster node: operations gated by the leader check, committed to
    the keyspace and then appended to the replication log. */
module AuthCluster {

  import opened Common
  import opened AuthKeys
  import opened AuthStore
  import opened AuthListing

  // ---------- Log ----------

  datatype LogEntry = OpSet(k: Bytes, v: Value) | OpDelete(k: Bytes) | OpBatch(ops: seq<BatchOp>)

  function ApplyEntry(db: DB, e: LogEntry): DB {
    match e
    case OpSet(k, v) => db[k := v]
    case OpDelete(k) => db - {k}
    case OpBatch(ops) => ApplyOps(db, ops)
  }

  /** A follower applies the log in order. */
  function Replay(db: DB, log: seq<LogEntry>): DB {
    if log == [] then db else ApplyEntry(Replay(db, log[..|log| - 1]), log[|log| - 1])
  }

  // ---------- Operations ----------

  datatype AuthOp =
    | Generate(hash: Hash, vault: Name, title: string, mode: string)
    | Scoped(hash: Hash, scope: seq<Name>, title: string, mode: string, allowAll: bool)
    | Revoke(vault: Name, id: Bytes)
    | SetConfig(cfg: VaultConfig)
    | RenameConfig(oldName: Name, newName: Name)
    | DeleteConfig(name: Name)

  /** How the surroundings answer one call: does the gate refuse, does the commit
      succeed, is a log wired and does it take the entry. */
  datatype Env = Env(refused: bool, committed: bool, appended: bool)

  predicate LegacyMode(mode: string) {
    mode in {"full", "observe", "write", "append"}
  }

  predicate ScopedMode(mode: string) {
    mode in {"full", "observe", "write"}
  }

  /** The write an operation would commit, if its arguments pass. */
  function Intent(db: DB, op: AuthOp): Option<LogEntry> {
    match op
    case Generate(h, vault, title, mode) =>
      if LegacyMode(mode) then Some(OpBatch(GenerateOps(LegacyKey(h, vault, title, mode)))) else None
    case Scoped(h, scope, title, mode, allowAll) =>
      if ScopedMode(mode) && ValidScope(scope, allowAll) then Some(OpBatch(ScopedOps(ScopedKey(h, scope, title, mode))))
      else None
    case Revoke(vault, id) =>
      var ops := Revocation(db, vault, id);
      if ops.Some? then Some(OpBatch(ops.value)) else None
    case SetConfig(cfg) => Some(OpSet(VaultConfigKey(cfg.name), Config(cfg)))
    case RenameConfig(oldName, newName) =>
      var k := VaultConfigKey(oldName);
      if k in db && db[k].Config?
      then Some(OpBatch([Set(VaultConfigKey(newName), Config(db[k].cfg.(name := newName))), Delete(k)]))
      else None
    case DeleteConfig(name) => Some(OpDelete(VaultConfigKey(name)))
  }

  datatype Node = Node(db: DB, log: seq<LogEntry>)

  /** Whether a call reaches its commit. Minting a scoped key never asks the gate. */
  predicate Commits(db: DB, op: AuthOp, env: Env) {
    Intent(db, op).Some? && env.committed && (op.Scoped? || !env.refused)
  }

  /** Minting a scoped key commits without appending to the log. */
  function Step(n: Node, op: AuthOp, env: Env): Node {
    if !Commits(n.db, op, env) then n
    else
      var e := Intent(n.db, op).value;
      Node(ApplyEntry(n.db, e), if !op.Scoped? && env.appended then n.log + [e] else n.log)
  }

  type Run = seq<(AuthOp, Env)>

  function After(n: Node, run: Run): Node {
    if run == [] then n
    else
      var last := run[|run| - 1];
      Step(After(n, run[..|run| - 1]), last.0, last.1)
  }

  // ---------- The store ----------

  datatype Outcome = Done | Refused | BadMode | BadScope | KeyNotFound | CommitFailed

  class Store {
    var db: DB
    var log: seq<LogEntry>

    function State(): (n: Node) reads this { Node(db, log) }

    constructor (initial: DB)
      ensures db == initial && log == []
    {
      db, log := initial, [];
    }

    /** Best-effort: a failed append is only logged. */
    method Replicate(e: LogEntry, env: Env)
      modifies this`log
      ensures log == old(log) + if env.appended then [e] else []
    {
      if env.appended {
        log := log + [e];
      }
    }

    method Put(k: Bytes, v: Value, env: Env) returns (ok: bool)
      modifies this
      ensures ok == env.committed
      ensures ok ==> db == old(db)[k := v] && log == old(log) + if env.appended then [OpSet(k, v)] else []
      ensures !ok ==> State() == old(State())
    {
      if !env.committed {
        return false;
      }
      db := db[k := v];
      Replicate(OpSet(k, v), env);
      return true;
    }

    method Del(k: Bytes, env: Env) returns (ok: bool)
      modifies this
      ensures ok == env.committed
      ensures ok ==> db == old(db) - {k} && log == old(log) + if env.appended then [OpDelete(k)] else []
      ensures !ok ==> State() == old(State())
    {
      if !env.committed {
        return false;
      }
      db := db - {k};
      Replicate(OpDelete(k), env);
      return true;
    }

    method Commit(batch: seq<BatchOp>, env: Env) returns (ok: bool)
      modifies this
      ensures ok == env.committed
      ensures ok ==> db == ApplyOps(old(db), batch)
      ensures ok ==> log == old(log) + if env.appended && batch != [] then [OpBatch(batch)] else []
      ensures !ok ==> State() == old(State())
    {
      if !env.committed {
        return false;
      }
      db := ApplyOps(db, batch);
      if batch != [] {
        Replicate(OpBatch(batch), env);
      }
      return true;
    }

    method GenerateAPIKey(h: Hash, vault: Name, title: string, mode: string, env: Env) returns (r: Outcome)
      modifies this
      ensures State() == Step(old(State()), Generate(h, vault, title, mode), env)
      ensures r == if env.refused then Refused else if !LegacyMode(mode) then BadMode
                   else if env.committed then Done else CommitFailed
    {
      if env.refused {
        return Refused;
      }
      if mode != "full" && mode != "observe" && mode != "write" && mode != "append" {
        return BadMode;
      }
      var key := APIKey(IdOf(h), h, vault, [], title, mode);
      var batch := [Set(StorageKey(h), Record(key)), Set(VaultIndexKey(vault, IdOf(h)), Pointer(h))];
      assert batch == GenerateOps(LegacyKey(h, vault, title, mode));
      var ok := Commit(batch, env);
      return if ok then Done else CommitFailed;
    }

    /** One batch operation per distinct literal, one for all globs together. */
    method ScopedBatch(key: APIKey) returns (batch: seq<BatchOp>)
      requires key.vaults != []
      ensures batch == ScopedOps(key)
    {
      hide LiteralsIn, IsGlob, VaultIndexKey, StorageKey, GlobIndexKey;
      batch := [Set(StorageKey(key.hash), Record(key))];
      NoLiterals();
      var seen: set<Name> := {};
      var hasGlob := false;
      var scope := key.vaults;
      for i := 0 to |scope|
        invariant batch == [Set(StorageKey(key.hash), Record(key))] + LiteralOps(key, scope[..i])
        invariant seen == LiteralsIn(scope[..i])
        invariant hasGlob <==> exists j :: 0 <= j < i && IsGlob(scope[j])
      {
        assert scope[..i + 1][..i] == scope[..i];
        LiteralsSnoc(scope, i);
        if IsGlob(scope[i]) {
          hasGlob := true;
        } else if scope[i] !in seen {
          seen := seen + {scope[i]};
          batch := batch + [Set(VaultIndexKey(scope[i], key.id), Pointer(key.hash))];
        }
      }
      assert scope[..|scope|] == scope && key.Scope() == scope;
      assert hasGlob <==> HasGlob(key);
      if hasGlob {
        batch := batch + [Set(GlobIndexKey(key.id), Pointer(key.hash))];
      }
    }

    /** Asks no gate and leaves the log alone: it commits on its own. */
    method GenerateScopedAPIKey(h: Hash, scope: seq<Name>, title: string, mode: string, allowAll: bool, env: Env)
      returns (r: Outcome)
      modifies this`db
      ensures State() == Step(old(State()), Scoped(h, scope, title, mode, allowAll), env)
      ensures r == if !ScopedMode(mode) then BadMode else if !ValidScope(scope, allowAll) then BadScope
                   else if env.committed then Done else CommitFailed
    {
      if mode != "full" && mode != "observe" && mode != "write" {
        return BadMode;
      }
      if !ValidScope(scope, allowAll) {
        return BadScope;
      }
      var key := ScopedKey(h, scope, title, mode);
      var batch := ScopedBatch(key);
      if !env.committed {
        return CommitFailed;
      }
      db := ApplyOps(db, batch);
      return Done;
    }

    method RevocationBatch(key: APIKey, h: Hash) returns (batch: seq<BatchOp>)
      ensures batch == RevokeOps(key, h)
    {
      batch := [Delete(StorageKey(h))];
      var scope := key.Scope();
      for i := 0 to |scope|
        invariant batch == [Delete(StorageKey(h))] + UnindexOps(key, scope[..i])
      {
        assert scope[..i + 1][..i] == scope[..i];
        if !IsGlob(scope[i]) {
          batch := batch + [Delete(VaultIndexKey(scope[i], key.id))];
        }
      }
      assert scope[..|scope|] == scope;
      if HasGlob(key) {
        batch := batch + [Delete(GlobIndexKey(key.id))];
      }
    }

    method RevokeAPIKey(vault: Name, id: Bytes, env: Env) returns (r: Outcome)
      modifies this
      ensures State() == Step(old(State()), Revoke(vault, id), env)
      ensures r == if env.refused then Refused else if Revocation(old(db), vault, id).None? then KeyNotFound
                   else if env.committed then Done else CommitFailed
    {
      if env.refused {
        return Refused;
      }
      if |id| != KEY_ID_LENGTH {
        return KeyNotFound;
      }
      var found := FindHash(db, vault, id);
      if found.None? {
        return KeyNotFound;
      }
      var record := Fetch(db, found.value);
      if record.None? {
        return KeyNotFound;
      }
      var batch := RevocationBatch(record.value.(id := id), found.value);
      assert batch != [];
      var ok := Commit(batch, env);
      return if ok then Done else CommitFailed;
    }

    method SetVaultConfig(cfg: VaultConfig, env: Env) returns (r: Outcome)
      modifies this
      ensures State() == Step(old(State()), SetConfig(cfg), env)
      ensures r == if env.refused then Refused else if env.committed then Done else CommitFailed
    {
      if env.refused {
        return Refused;
      }
      var ok := Put(VaultConfigKey(cfg.name), Config(cfg), env);
      return if ok then Done else CommitFailed;
    }

    method RenameVaultConfig(oldName: Name, newName: Name, env: Env) returns (r: Outcome)
      modifies this
      ensures State() == Step(old(State()), RenameConfig(oldName, newName), env)
      ensures r == if env.refused then Refused else if Intent(old(db), RenameConfig(oldName, newName)).None? then Done
                   else if env.committed then Done else CommitFailed
    {
      if env.refused {
        return Refused;
      }
      var k := VaultConfigKey(oldName);
      if k !in db || !db[k].Config? {
        return Done;
      }
      var cfg := db[k].cfg.(name := newName);
      var ok := Commit([Set(VaultConfigKey(newName), Config(cfg)), Delete(k)], env);
      return if ok then Done else CommitFailed;
    }

    method DeleteVaultConfig(name: Name, env: Env) returns (r: Outcome)
      modifies this
      ensures State() == Step(old(State()), DeleteConfig(name), env)
      ensures r == if env.refused then Refused else if env.committed then Done else CommitFailed
    {
      if env.refused {
        return Refused;
      }
      var ok := Del(VaultConfigKey(name), env);
      return if ok then Done else CommitFailed;
    }

    /** The vault's own entries in byte order, then every glob entry in byte order. */
    method ListAPIKeys(vault: Name) returns (keys: seq<APIKey>, ghost own: seq<Bytes>, ghost globs: seq<Bytes>)
      ensures Lists(db, vault, keys)
      ensures Sources(db, vault, keys, own, globs)
    {
      hide Reachable, InVaultScan, InGlobScan, ScopeMatch, Fetch, Collected, Less, IsLeast;
      var seen: set<KeyId> := {};
      keys, own, globs := [], [], [];
      NothingCollected(db, vault);
      var todo := set b | b in db && InVaultScan(b, vault);
      while todo != {}
        invariant forall b | b in todo :: b in db && InVaultScan(b, vault)
        invariant Collected(db, vault, keys, seen)
        invariant Sources(db, vault, keys, own, []) && Before(own, todo)
        invariant forall b, k | InVaultScan(b, vault) && b !in todo && LeadsTo(db, b, k) :: k.id in seen
      {
        var b := Least(todo);
        LeastNext(own, todo, b);
        todo := todo - {b};
        var t := Target(db[b]);
        var f := if t.Some? then Fetch(db, t.value) else None;
        if f.Some? && f.value.id !in seen {
          VaultEntryReaches(db, vault, b, f.value);
          CollectOne(db, vault, keys, seen, f.value);
          seen := seen + {f.value.id};
          keys, own := keys + [f.value], own + [b];
        }
      }
      todo := set b | b in db && InGlobScan(b);
      while todo != {}
        invariant forall b | b in todo :: b in db && InGlobScan(b)
        invariant Collected(db, vault, keys, seen)
        invariant Sources(db, vault, keys, own, globs) && Before(globs, todo)
        invariant forall b, k | InVaultScan(b, vault) && LeadsTo(db, b, k) :: k.id in seen
        invariant forall b, k | InGlobScan(b) && b !in todo && LeadsTo(db, b, k) && ScopeMatch(k.Scope(), vault) ::
                  k.id in seen
      {
        var b := Least(todo);
        LeastNext(globs, todo, b);
        todo := todo - {b};
        var t := Target(db[b]);
        var f := if t.Some? then Fetch(db, t.value) else None;
        if f.Some? && f.value.id !in seen && ScopeMatch(f.value.Scope(), vault) {
          GlobEntryReaches(db, vault, b, f.value);
          CollectOne(db, vault, keys, seen, f.value);
          seen := seen + {f.value.id};
          keys, globs := keys + [f.value], globs + [b];
        }
      }
      CollectedAll(db, vault, keys, seen);
    }
  }

  lemma LiteralsSnoc(scope: seq<Name>, i: nat)
    requires i < |scope|
    ensures LiteralsIn(scope[..i + 1]) == LiteralsIn(scope[..i]) + if IsGlob(scope[i]) then {} else {scope[i]}
    ensures scope[i] in LiteralsIn(scope[..i]) <==> !IsGlob(scope[i]) && scope[i] in scope[..i]
  {
    assert scope[..i + 1] == scope[..i] + [scope[i]];
  }

  lemma NoLiterals()
    ensures LiteralsIn([]) == {}
  {
  }

  /** The iterator's next key. */
  method Least(todo: set<Bytes>) returns (b: Bytes)
    requires todo != {}
    ensures b in todo && IsLeast(b, todo)
  {
    ghost var least := LeastExists(todo);
    b :| b in todo && IsLeast(b, todo);
  }
}
