/** Vault configs over whole runs: the keyspace refines a plain map from vault name to
    config, and a vault is open to the public only if a caller has opened it. */
module AuthConfigs {

  import opened Common
  import opened AuthKeys
  import opened AuthStore
  import opened AuthBatches
  import opened AuthCluster
  import opened AuthRuns

  type Configs = map<Name, VaultConfig>

  /** What a reader gets: the stored config, the locked default where none is stored, an
      error for a value that is no config. */
  function GetVaultConfig(db: DB, name: Name): Option<VaultConfig> {
    var k := VaultConfigKey(name);
    if k !in db then Some(VaultConfig(name, false, ""))
    else if db[k].Config? then Some(db[k].cfg)
    else None
  }

  /** The abstract effect of one call: the last write for a name counts, a rename takes
      the config along, key operations leave configs alone. */
  function ConfigsStep(cs: Configs, op: AuthOp, env: Env): Configs {
    if env.refused || !env.committed then cs
    else
      match op
      case SetConfig(cfg) => cs[cfg.name := cfg]
      case RenameConfig(oldName, newName) =>
        if oldName in cs then cs[newName := cs[oldName].(name := newName)] - {oldName} else cs
      case DeleteConfig(name) => cs - {name}
      case _ => cs
  }

  function ConfigsAfter(cs: Configs, run: Run): Configs {
    if run == [] then cs
    else
      var last := run[|run| - 1];
      ConfigsStep(ConfigsAfter(cs, run[..|run| - 1]), last.0, last.1)
  }

  /** The keyspace holds exactly these configs. */
  ghost predicate Holds(db: DB, cs: Configs) {
    forall name :: HoldsAt(db, cs, name)
  }

  ghost predicate HoldsAt(db: DB, cs: Configs, name: Name) {
    var k := VaultConfigKey(name);
    && (name in cs <==> k in db && db[k].Config?)
    && (name in cs ==> db[k] == Config(cs[name]))
  }

  /** The config keys of two keyspaces agree. */
  ghost predicate SameConfigs(db: DB, db': DB) {
    forall name :: var k := VaultConfigKey(name); (k in db <==> k in db') && (k in db ==> db[k] == db'[k])
  }

  lemma InsertKeepsConfigs(db: DB, k: APIKey, h: Hash)
    ensures SameConfigs(db, Insert(db, k)) && SameConfigs(db, Remove(db, k, h))
  {
    forall name
      ensures VaultConfigKey(name) !in IndexKeys(k)
      ensures VaultConfigKey(name) != StorageKey(h) && VaultConfigKey(name) != StorageKey(k.hash)
    {
      ConfigKeyIsNoStorageKey(h, name);
      ConfigKeyIsNoStorageKey(k.hash, name);
      if VaultConfigKey(name) in IndexKeys(k) {
        IndexKeyKinds(k, VaultConfigKey(name));
      }
    }
  }

  lemma GenerateKeepsConfigs(db: DB, k: APIKey)
    ensures SameConfigs(db, ApplyOps(db, GenerateOps(k)))
  {
    GenerateOpsEffect(db, k);
    forall name
      ensures VaultConfigKey(name) != StorageKey(k.hash) && VaultConfigKey(name) != VaultIndexKey(k.vault, k.id)
    {
      ConfigKeyIsNoStorageKey(k.hash, name);
      assert VaultConfigKey(name)[0] != VaultIndexKey(k.vault, k.id)[0];
    }
    hide ApplyOps, GenerateOps, VaultConfigKey, StorageKey, VaultIndexKey;
  }

  lemma KeyOpsKeepConfigs(db: DB, op: AuthOp)
    requires (op.Generate? || op.Scoped? || op.Revoke?) && Intent(db, op).Some?
    ensures SameConfigs(db, ApplyEntry(db, Intent(db, op).value))
  {
    hide SameConfigs, GenerateOps, ScopedOps, RevokeOps, ApplyOps, FindHash, Fetch;
    match op
    case Generate(h, vault, title, mode) => GenerateKeepsConfigs(db, LegacyKey(h, vault, title, mode));
    case Scoped(h, scope, title, mode, _) =>
      var k := ScopedKey(h, scope, title, mode);
      ScopedOpsInsert(db, k);
      InsertKeepsConfigs(db, k, h);
    case Revoke(vault, id) =>
      var h := FindHash(db, vault, id).value;
      var k := Fetch(db, h).value.(id := id);
      RevokeOpsRemove(db, k, h);
      InsertKeepsConfigs(db, k, h);
  }

  /** Writing one config key writes that name ... */
  lemma PutHolds(db: DB, cs: Configs, cfg: VaultConfig)
    requires Holds(db, cs)
    ensures Holds(db[VaultConfigKey(cfg.name) := Config(cfg)], cs[cfg.name := cfg])
  {
    var db', cs' := db[VaultConfigKey(cfg.name) := Config(cfg)], cs[cfg.name := cfg];
    forall name
      ensures HoldsAt(db', cs', name)
    {
      assert HoldsAt(db, cs, name);
      if VaultConfigKey(name) == VaultConfigKey(cfg.name) {
        ConfigKeyInjective(name, cfg.name);
      }
      hide VaultConfigKey;
    }
  }

  /** ... and deleting it deletes the name. */
  lemma DeleteHolds(db: DB, cs: Configs, name: Name)
    requires Holds(db, cs)
    ensures Holds(db - {VaultConfigKey(name)}, cs - {name})
  {
    var db', cs' := db - {VaultConfigKey(name)}, cs - {name};
    forall other
      ensures HoldsAt(db', cs', other)
    {
      assert HoldsAt(db, cs, other);
      if VaultConfigKey(other) == VaultConfigKey(name) {
        ConfigKeyInjective(other, name);
      }
      hide VaultConfigKey;
    }
  }

  /** One call does to the stored configs what it does to the map. */
  lemma StepHolds(n: Node, cs: Configs, op: AuthOp, env: Env)
    requires Holds(n.db, cs)
    ensures Holds(Step(n, op, env).db, ConfigsStep(cs, op, env))
  {
    hide ApplyOps, VaultConfigKey;
    match op
    case SetConfig(cfg) => PutHolds(n.db, cs, cfg); hide Holds;
    case DeleteConfig(name) => DeleteHolds(n.db, cs, name); hide Holds;
    case RenameConfig(oldName, newName) =>
      assert HoldsAt(n.db, cs, oldName);
      if oldName in cs {
        var cfg := cs[oldName].(name := newName);
        TwoOps(n.db, Set(VaultConfigKey(newName), Config(cfg)), Delete(VaultConfigKey(oldName)));
        PutHolds(n.db, cs, cfg);
        DeleteHolds(n.db[VaultConfigKey(newName) := Config(cfg)], cs[newName := cfg], oldName);
      }
      hide Holds;
    case _ =>
      if Intent(n.db, op).Some? {
        KeyOpsKeepConfigs(n.db, op);
        KeptHolds(n.db, ApplyEntry(n.db, Intent(n.db, op).value), cs);
      }
      hide Holds, Intent, ApplyEntry;
  }

  lemma KeptHolds(db: DB, db': DB, cs: Configs)
    requires Holds(db, cs) && SameConfigs(db, db')
    ensures Holds(db', cs)
  {
    hide VaultConfigKey;
    forall name
      ensures HoldsAt(db', cs, name)
    {
      assert HoldsAt(db, cs, name);
    }
  }

  /** Over every run, whatever keys it mints and revokes: reading a vault's config gives
      what the map of configs says, and the locked default for a name it does not hold. */
  lemma {:induction false} RunHolds(n: Node, cs: Configs, run: Run)
    requires Holds(n.db, cs)
    ensures Holds(After(n, run).db, ConfigsAfter(cs, run))
    decreases |run|
  {
    hide Holds, Step, ConfigsStep;
    if run != [] {
      var init, last := run[..|run| - 1], run[|run| - 1];
      RunHolds(n, cs, init);
      StepHolds(After(n, init), ConfigsAfter(cs, init), last.0, last.1);
    }
  }

  lemma ReadAfterRun(n: Node, cs: Configs, run: Run, name: Name)
    requires Holds(n.db, cs)
    ensures var after := ConfigsAfter(cs, run);
            && (name in after ==> GetVaultConfig(After(n, run).db, name) == Some(after[name]))
            && (name !in after ==> GetVaultConfig(After(n, run).db, name) in {None, Some(VaultConfig(name, false, ""))})
  {
    RunHolds(n, cs, run);
    assert HoldsAt(After(n, run).db, ConfigsAfter(cs, run), name);
    hide After, ConfigsAfter, VaultConfigKey;
  }

  /** Some call of the run opens a vault. */
  ghost predicate OpensVault(run: Run, i: int) {
    0 <= i < |run| && run[i].0.SetConfig? && run[i].0.cfg.isPublic
  }

  lemma {:induction false} OpenIsAsked(cs: Configs, run: Run, name: Name)
    requires forall v | v in cs :: !cs[v].isPublic
    requires name in ConfigsAfter(cs, run) && ConfigsAfter(cs, run)[name].isPublic
    ensures exists i :: OpensVault(run, i)
    decreases |run|
  {
    if run != [] {
      var init, last := run[..|run| - 1], run[|run| - 1];
      var before := ConfigsAfter(cs, init);
      if last.0.SetConfig? && last.0.cfg.isPublic {
        assert OpensVault(run, |run| - 1);
      } else {
        var kept := name in before && before[name].isPublic;
        var source := if last.0.RenameConfig? && !kept then last.0.oldName else name;
        OpenIsAsked(cs, init, source);
        var i :| OpensVault(init, i);
        assert OpensVault(run, i);
      }
    }
  }

  /** Fail-closed: where no config is public and no call of the run sets a public one, no
      vault is open at the end, whatever else was renamed, deleted, minted or revoked. */
  lemma StaysLocked(n: Node, cs: Configs, run: Run, name: Name)
    requires Holds(n.db, cs) && (forall v | v in cs :: !cs[v].isPublic)
    requires forall i :: !OpensVault(run, i)
    ensures var cfg := GetVaultConfig(After(n, run).db, name); cfg.Some? ==> !cfg.value.isPublic
  {
    hide After, ConfigsAfter, GetVaultConfig, OpensVault, Holds;
    ReadAfterRun(n, cs, run, name);
    if name in ConfigsAfter(cs, run) && ConfigsAfter(cs, run)[name].isPublic {
      OpenIsAsked(cs, run, name);
    }
  }
}
