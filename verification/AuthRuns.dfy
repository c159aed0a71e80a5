/** Whole runs of auth operations: replicas, the leader gate, and the keys a run leaves. */
module AuthRuns {

  import opened AuthKeys
  import opened AuthStore
  import opened AuthBatches
  import opened AuthListing
  import opened AuthCluster

  // ---------- Replicas ----------

  /** Replaying the log on a copy of the initial keyspace gives the keyspace. */
  ghost predicate Agrees(initial: DB, n: Node) {
    Replay(initial, n.log) == n.db
  }

  lemma ReplayOneMore(db: DB, log: seq<LogEntry>, e: LogEntry)
    ensures Replay(db, log + [e]) == ApplyEntry(Replay(db, log), e)
  {
  }

  /** One step keeps a replica in agreement if and only if its write was logged, was
      never committed, or changed nothing. */
  lemma StepAgreesIff(initial: DB, n: Node, op: AuthOp, env: Env)
    requires Agrees(initial, n)
    ensures Agrees(initial, Step(n, op, env)) <==>
              || !Commits(n.db, op, env)
              || (!op.Scoped? && env.appended)
              || ApplyEntry(n.db, Intent(n.db, op).value) == n.db
  {
    hide Intent;
    if Commits(n.db, op, env) {
      ReplayOneMore(initial, n.log, Intent(n.db, op).value);
    }
  }

  /** Every run of replicated writes whose appends succeed keeps replicas in agreement. */
  lemma {:induction false} ReplicaAgreement(initial: DB, n: Node, run: Run)
    requires Agrees(initial, n)
    requires forall i | 0 <= i < |run| :: !run[i].0.Scoped? && run[i].1.appended
    ensures Agrees(initial, After(n, run))
    decreases |run|
  {
    hide Step, Commits;
    if run != [] {
      var init, last := run[..|run| - 1], run[|run| - 1];
      ReplicaAgreement(initial, n, init);
      StepAgreesIff(initial, After(n, init), last.0, last.1);
    }
  }

  lemma ScopedWrites(db: DB, h: Hash, scope: seq<Name>, title: string, mode: string)
    requires scope != []
    ensures StorageKey(h) in ApplyOps(db, ScopedOps(ScopedKey(h, scope, title, mode)))
  {
    ScopedOpsInsert(db, ScopedKey(h, scope, title, mode));
  }

  /** Minting a scoped key under a new hash breaks agreement whenever it succeeds. */
  lemma ScopedBreaksAgreement(initial: DB, n: Node, op: AuthOp, env: Env)
    requires Agrees(initial, n) && op.Scoped? && StorageKey(op.hash) !in n.db
    ensures Agrees(initial, Step(n, op, env)) <==> !Commits(n.db, op, env)
  {
    if Commits(n.db, op, env) {
      ScopedWrites(n.db, op.hash, op.scope, op.title, op.mode);
    }
    StepAgreesIff(initial, n, op, env);
  }

  // What a logged entry can bring into a follower

  lemma GenerateAddsOnly(db: DB, h: Hash, vault: Name, title: string, mode: string, g: Hash)
    requires StorageKey(g) !in db && g != h
    ensures StorageKey(g) !in ApplyOps(db, GenerateOps(LegacyKey(h, vault, title, mode)))
  {
    GenerateOpsEffect(db, LegacyKey(h, vault, title, mode));
    assert StorageKey(g)[1..] == g && StorageKey(h)[1..] == h;
    assert StorageKey(g)[0] != VaultIndexKey(vault, IdOf(h))[0];
  }

  lemma RevokeKeepsAbsent(db: DB, k: APIKey, h: Hash, b: Bytes)
    requires b !in db
    ensures b !in ApplyOps(db, RevokeOps(k, h))
  {
    RevokeOpsRemove(db, k, h);
  }

  lemma RenameKeepsAbsent(db: DB, k: Bytes, v: Value, l: Bytes, b: Bytes)
    requires b !in db && b != k
    ensures b !in ApplyOps(db, [Set(k, v), Delete(l)])
  {
    TwoOps(db, Set(k, v), Delete(l));
  }

  lemma TwoOps(db: DB, a: BatchOp, b: BatchOp)
    ensures ApplyOps(db, [a, b]) == ApplyOp(ApplyOp(db, a), b)
  {
    assert [a, b] == [a] + [b];
    ApplyConcat(db, [a], [b]);
    ApplyOne(db, a);
    ApplyOne(ApplyOp(db, a), b);
  }

  lemma ConfigKeyIsNoStorageKey(h: Hash, name: Name)
    ensures StorageKey(h) != VaultConfigKey(name)
  {
    assert StorageKey(h)[0] != VaultConfigKey(name)[0];
  }

  /** The entry of any operation but one minting `h` brings no record under `h`. */
  lemma EntryKeepsAbsent(db: DB, replica: DB, op: AuthOp, h: Hash)
    requires StorageKey(h) !in replica && !op.Scoped? && Intent(db, op).Some?
    requires op.Generate? ==> op.hash != h
    ensures StorageKey(h) !in ApplyEntry(replica, Intent(db, op).value)
  {
    hide StorageKey, VaultConfigKey, GenerateOps, RevokeOps, ApplyOps, VaultIndexKey, LegacyMode;
    match op
    case Generate(g, vault, title, mode) => GenerateAddsOnly(replica, g, vault, title, mode, h);
    case Revoke(vault, id) =>
      var g := FindHash(db, vault, id).value;
      RevokeKeepsAbsent(replica, Fetch(db, g).value.(id := id), g, StorageKey(h));
    case SetConfig(cfg) => ConfigKeyIsNoStorageKey(h, cfg.name);
    case RenameConfig(oldName, newName) =>
      var k := VaultConfigKey(oldName);
      ConfigKeyIsNoStorageKey(h, newName);
      RenameKeepsAbsent(replica, VaultConfigKey(newName), Config(db[k].cfg.(name := newName)), k, StorageKey(h));
    case DeleteConfig(name) =>
  }

  lemma StepKeepsAbsent(initial: DB, n: Node, op: AuthOp, env: Env, h: Hash)
    requires StorageKey(h) !in Replay(initial, n.log)
    requires op.Generate? ==> op.hash != h
    ensures StorageKey(h) !in Replay(initial, Step(n, op, env).log)
  {
    hide Intent, StorageKey, Replay, ApplyEntry;
    if Commits(n.db, op, env) && !op.Scoped? && env.appended {
      EntryKeepsAbsent(n.db, Replay(initial, n.log), op, h);
      ReplayOneMore(initial, n.log, Intent(n.db, op).value);
    }
  }

  /** A key minted with a scope never reaches a follower, however the run goes on. */
  lemma {:induction false} ScopedNeverReachesFollowers(initial: DB, n: Node, run: Run, h: Hash)
    requires StorageKey(h) !in Replay(initial, n.log)
    requires forall i | 0 <= i < |run| && run[i].0.Generate? :: run[i].0.hash != h
    ensures StorageKey(h) !in Replay(initial, After(n, run).log)
    decreases |run|
  {
    hide Step, StorageKey, Replay;
    if run != [] {
      var init, last := run[..|run| - 1], run[|run| - 1];
      ScopedNeverReachesFollowers(initial, n, init, h);
      StepKeepsAbsent(initial, After(n, init), last.0, last.1, h);
    }
  }

  // ---------- The gate ----------

  /** On a node the gate refuses, a step changes nothing unless it mints a scoped key;
      and that one the gate does not see. */
  lemma GateStops(n: Node, op: AuthOp, env: Env)
    requires env.refused
    ensures !op.Scoped? ==> Step(n, op, env) == n
    ensures op.Scoped? && StorageKey(op.hash) !in n.db ==> (Step(n, op, env) == n <==> !Commits(n.db, op, env))
    ensures op.Scoped? ==> Step(n, op, env) == Step(n, op, env.(refused := false))
  {
    if op.Scoped? && Commits(n.db, op, env) {
      ScopedWrites(n.db, op.hash, op.scope, op.title, op.mode);
    }
  }

  /** Gated methods leave a follower unchanged over any run. */
  lemma {:induction false} FollowerUnchanged(n: Node, run: Run)
    requires forall i | 0 <= i < |run| :: !run[i].0.Scoped? && run[i].1.refused
    ensures After(n, run) == n
    decreases |run|
  {
    hide Step;
    if run != [] {
      var last := run[|run| - 1];
      FollowerUnchanged(n, run[..|run| - 1]);
      GateStops(n, last.0, last.1);
    }
  }

  // ---------- Vault configs ----------

  lemma ConfigKeyInjective(v: Name, w: Name)
    requires VaultConfigKey(v) == VaultConfigKey(w)
    ensures v == w
  {
    assert VaultConfigKey(v)[1..] == v && VaultConfigKey(w)[1..] == w;
  }

  /** Renaming moves an existing config and touches nothing else, if and only if the
      names differ; renaming to the same name deletes the config. */
  lemma RenameMovesIff(db: DB, oldName: Name, newName: Name)
    requires VaultConfigKey(oldName) in db && db[VaultConfigKey(oldName)].Config?
    ensures Intent(db, RenameConfig(oldName, newName)).Some?
    ensures var from, to := VaultConfigKey(oldName), VaultConfigKey(newName);
            var db' := ApplyEntry(db, Intent(db, RenameConfig(oldName, newName)).value);
            && (to in db' <==> oldName != newName)
            && (oldName != newName ==> db' == db[to := Config(db[from].cfg.(name := newName))] - {from})
            && (oldName == newName ==> db' == db - {from})
  {
    var from, to := VaultConfigKey(oldName), VaultConfigKey(newName);
    var cfg := db[from].cfg.(name := newName);
    TwoOps(db, Set(to, Config(cfg)), Delete(from));
    if from == to {
      ConfigKeyInjective(oldName, newName);
    }
    hide VaultConfigKey, ApplyOps;
  }

  // ---------- Which keys are live ----------

  /** The abstract store: minting adds a record, revoking removes the ones that answer. */
  function RecordsStep(recs: Records, op: AuthOp, env: Env): Records {
    match op
    case Generate(h, vault, title, mode) =>
      if LegacyMode(mode) && env.committed && !env.refused then recs[h := LegacyKey(h, vault, title, mode)] else recs
    case Scoped(h, scope, title, mode, allowAll) =>
      if ScopedMode(mode) && ValidScope(scope, allowAll) && env.committed
      then recs[h := ScopedKey(h, scope, title, mode)] else recs
    case Revoke(vault, id) => if env.committed && !env.refused then recs - Revoked(recs, vault, id) else recs
    case _ => recs
  }

  function RecordsAfter(recs: Records, run: Run): Records {
    if run == [] then recs
    else
      var last := run[|run| - 1];
      RecordsStep(RecordsAfter(recs, run[..|run| - 1]), last.0, last.1)
  }

  /** Hashes are new with new ids; a single-vault key names a vault literally. */
  ghost predicate Admissible(recs: Records, op: AuthOp) {
    match op
    case Generate(h, vault, _, _) => Unused(recs, h) && IsLiteral(vault)
    case Scoped(h, _, _, _, _) => Unused(recs, h)
    case _ => true
  }

  ghost predicate AdmissibleRun(recs: Records, run: Run) {
    forall i | 0 <= i < |run| :: Admissible(RecordsAfter(recs, run[..i]), run[i].0)
  }

  /** Keyspaces that differ only in configs hold the same keys. */
  ghost predicate SameKeys(db: DB, db': DB) {
    forall b | b == [] || b[0] != PREFIX_VAULT_CONFIG :: (b in db <==> b in db') && (b in db ==> db[b] == db'[b])
  }

  lemma SameRepresents(db: DB, db': DB, recs: Records)
    requires Represents(db, recs) && SameKeys(db, db')
    ensures Represents(db', recs)
  {
  }

  lemma ConfigWritesKeepKeys(db: DB, op: AuthOp)
    requires op.SetConfig? || op.RenameConfig? || op.DeleteConfig?
    requires Intent(db, op).Some?
    ensures SameKeys(db, ApplyEntry(db, Intent(db, op).value))
  {
    if op.RenameConfig? {
      var k := VaultConfigKey(op.oldName);
      TwoOps(db, Set(VaultConfigKey(op.newName), Config(db[k].cfg.(name := op.newName))), Delete(k));
    }
  }

  lemma StepRepresents(n: Node, recs: Records, op: AuthOp, env: Env)
    requires Represents(n.db, recs) && Admissible(recs, op)
    ensures Represents(Step(n, op, env).db, RecordsStep(recs, op, env))
  {
    hide Represents, Unused, IsLiteral, Fresh, ValidScope, LegacyMode, ScopedMode, Revoked, Revocation;
    match op
    case Generate(h, vault, title, mode) =>
      MintRepresents(n.db, recs, h, vault, title, mode);
    case Scoped(h, scope, title, mode, allowAll) =>
      if ValidScope(scope, allowAll) {
        ScopedRepresents(n.db, recs, h, scope, title, mode, allowAll);
      }
    case Revoke(vault, id) =>
      RevokeRepresents(n.db, recs, vault, id);
      if Revoked(recs, vault, id) == {} {
        assert recs - Revoked(recs, vault, id) == recs;
      }
    case _ =>
      if Intent(n.db, op).Some? {
        ConfigWritesKeepKeys(n.db, op);
        SameRepresents(n.db, ApplyEntry(n.db, Intent(n.db, op).value), recs);
      }
  }

  lemma MintRepresents(db: DB, recs: Records, h: Hash, vault: Name, title: string, mode: string)
    requires Represents(db, recs) && Unused(recs, h) && IsLiteral(vault)
    ensures var k := LegacyKey(h, vault, title, mode);
            Represents(ApplyOps(db, GenerateOps(k)), recs[h := k])
  {
    LegacyIsFresh(recs, h, vault, title, mode);
    GenerateOpsInsert(db, h, vault, title, mode);
    InsertRepresents(db, recs, LegacyKey(h, vault, title, mode));
  }

  lemma ScopedRepresents(db: DB, recs: Records, h: Hash, scope: seq<Name>, title: string, mode: string, allowAll: bool)
    requires Represents(db, recs) && Unused(recs, h) && ValidScope(scope, allowAll)
    ensures var k := ScopedKey(h, scope, title, mode);
            Represents(ApplyOps(db, ScopedOps(k)), recs[h := k])
  {
    ScopedIsFresh(recs, h, scope, title, mode, allowAll);
    ScopedOpsInsert(db, ScopedKey(h, scope, title, mode));
    InsertRepresents(db, recs, ScopedKey(h, scope, title, mode));
  }

  /** The byte-keyed store refines the plain map of records over every run. */
  lemma {:induction false} RunRepresents(n: Node, recs: Records, run: Run)
    requires Represents(n.db, recs) && AdmissibleRun(recs, run)
    ensures Represents(After(n, run).db, RecordsAfter(recs, run))
    decreases |run|
  {
    hide Represents, Step, RecordsStep, Admissible;
    if run != [] {
      var init, last := run[..|run| - 1], run[|run| - 1];
      forall i | 0 <= i < |init|
        ensures Admissible(RecordsAfter(recs, init[..i]), init[i].0)
      {
        assert init[..i] == run[..i];
      }
      RunRepresents(n, recs, init);
      StepRepresents(After(n, init), RecordsAfter(recs, init), last.0, last.1);
    }
  }

  lemma EmptyRepresents()
    ensures Represents(map[], map[])
  {
  }

  /** After any run of mints, revocations and config writes, listing a vault gives exactly
      the live keys whose scope covers it, each once; for a name with a NUL also those
      that stray into its scan. */
  lemma ListAfterRun(n: Node, recs: Records, run: Run, vault: Name, keys: seq<APIKey>)
    requires Represents(n.db, recs) && AdmissibleRun(recs, run) && Lists(After(n, run).db, vault, keys)
    ensures var live := RecordsAfter(recs, run);
            && (forall k :: k in keys <==> Live(live, k) && (ScopeMatch(k.Scope(), vault) || Strays(k, vault)))
            && (NulFree(vault) ==> forall k :: k in keys <==> Live(live, k) && ScopeMatch(k.Scope(), vault))
    ensures forall i, j | 0 <= i < j < |keys| :: keys[i] != keys[j]
  {
    hide Lists, Represents, ScopeMatch, Strays, AdmissibleRun, Live, After;
    RunRepresents(n, recs, run);
    ListingIsExact(After(n, run).db, RecordsAfter(recs, run), vault, keys);
  }

  /** And so does listing it on a follower that replayed the log. */
  lemma ListOnFollower(initial: DB, recs: Records, run: Run, vault: Name, keys: seq<APIKey>)
    requires Represents(initial, recs) && AdmissibleRun(recs, run)
    requires forall i | 0 <= i < |run| :: !run[i].0.Scoped? && run[i].1.appended
    requires Lists(Replay(initial, After(Node(initial, []), run).log), vault, keys)
    ensures var live := RecordsAfter(recs, run);
            && (forall k :: k in keys <==> Live(live, k) && (ScopeMatch(k.Scope(), vault) || Strays(k, vault)))
            && (NulFree(vault) ==> forall k :: k in keys <==> Live(live, k) && ScopeMatch(k.Scope(), vault))
  {
    hide Lists, Represents, ScopeMatch, Strays, AdmissibleRun, Live, After;
    ReplicaAgreement(initial, Node(initial, []), run);
    ListAfterRun(Node(initial, []), recs, run, vault, keys);
  }
}
