/** processBatch: plan one update per audible, readable pair, commit the plan to a store
    that may apply only part of it, and announce exactly what landed. */
module HebbianWorkers {

  import opened Common
  import opened LtpCounters
  import opened Hebbian
  import opened HebbianLearning

  type Store = map<LtpKey, Edge>

  datatype Update = Update(key: LtpKey, weight: real, countDelta: UInt32, lastAt: int)
  datatype Callback = Callback(idx: nat, ws: Workspace, id: Id, before: real, after: real)

  /** The store's answer to a batch of updates. */
  datatype Commit = Applied | Skipped(indices: set<nat>) | Failed {
    predicate Persists(i: nat) {
      Applied? || (Skipped? && i !in indices)
    }
  }

  function EdgeOf(store: Store, key: LtpKey): Edge {
    if key in store then store[key] else NO_EDGE
  }

  function KeyOf(pairs: Pairs, k: PairKey): LtpKey
    requires k in pairs
  {
    LtpKey(pairs[k].ws, k)
  }

  /** The event's configuration takes precedence over the worker's. */
  function ConfigOf(s: Stats, worker: Option<LtpConfig>): Option<LtpConfig> {
    if s.ltp.Some? then s.ltp else worker
  }

  predicate Tracks(cfg: Option<LtpConfig>) {
    cfg.Some? && cfg.value.threshold > 0
  }

  /** The floor of a potentiated pair, if enabled. */
  function Floored(w: real, cfg: Option<LtpConfig>, potentiated: bool): real {
    if Tracks(cfg) && potentiated && cfg.value.weightFloor > 0.0 && w < cfg.value.weightFloor then cfg.value.weightFloor
    else w
  }

  /** The update of pair `k`, given the counters at the end of the pass. */
  function UpdateOf(g: Growth, pairs: Pairs, store: Store, worker: Option<LtpConfig>, potentiated: set<LtpKey>,
                    k: PairKey): Update
    requires k in pairs
  {
    var s, key := pairs[k], KeyOf(pairs, k);
    var w := NewWeight(g, EdgeOf(store, key).weight, s.signal);
    Update(key, Floored(w, ConfigOf(s, worker), key in potentiated), CountDelta(s.count), LastAt(s.at))
  }

  function CallbackOf(store: Store, i: nat, u: Update): Callback {
    Callback(i, u.key.ws, u.key.pair.a, Seed(EdgeOf(store, u.key).weight), u.weight)
  }

  predicate IsAudible(g: Growth, pairs: Pairs, k: PairKey)
    requires k in pairs
  {
    pairs[k].signal >= g.epsilon
  }

  /** The pairs that should learn but whose weight cannot be read. */
  function Unreadable(g: Growth, pairs: Pairs, faults: set<LtpKey>): set<PairKey> {
    set k | k in pairs && IsAudible(g, pairs, k) && KeyOf(pairs, k) in faults
  }

  function Learnable(g: Growth, pairs: Pairs, faults: set<LtpKey>): set<PairKey> {
    set k | k in pairs && IsAudible(g, pairs, k) && KeyOf(pairs, k) !in faults
  }

  ghost function Planned(updates: seq<Update>): set<PairKey> {
    set i | 0 <= i < |updates| :: updates[i].key.pair
  }

  /** One update for each pair planned so far, each once. */
  ghost predicate PlanIs(g: Growth, pairs: Pairs, store: Store, worker: Option<LtpConfig>, ltp: Ltp,
                         updates: seq<Update>) {
    && (forall i, j | 0 <= i < j < |updates| :: updates[i].key.pair != updates[j].key.pair)
    && (forall i | 0 <= i < |updates| :: updates[i].key.pair in pairs
          && updates[i] == UpdateOf(g, pairs, store, worker, ltp.potentiated, updates[i].key.pair))
  }

  ghost predicate CallbacksFor(store: Store, notify: bool, updates: seq<Update>, callbacks: seq<Callback>) {
    && |callbacks| == (if notify then |updates| else 0)
    && forall i | 0 <= i < |callbacks| :: callbacks[i] == CallbackOf(store, i, updates[i])
  }

  function Track(ltp: Ltp, cfg: Option<LtpConfig>, key: LtpKey, delta: UInt32): Ltp
    requires InRange(ltp)
  {
    if Tracks(cfg) then AddCount(ltp, key, delta, cfg.value.threshold).0 else ltp
  }

  lemma PlanStep(g: Growth, pairs: Pairs, store: Store, worker: Option<LtpConfig>, ltp: Ltp, updates: seq<Update>,
                 k: PairKey, delta: UInt32)
    requires InRange(ltp) && PlanIs(g, pairs, store, worker, ltp, updates)
    requires k in pairs && k !in Planned(updates)
    ensures var ltp' := Track(ltp, ConfigOf(pairs[k], worker), KeyOf(pairs, k), delta);
            && InRange(ltp')
            && PlanIs(g, pairs, store, worker, ltp', updates + [UpdateOf(g, pairs, store, worker, ltp'.potentiated, k)])
            && Planned(updates + [UpdateOf(g, pairs, store, worker, ltp'.potentiated, k)]) == Planned(updates) + {k}
  {
    hide NewWeight;
    var cfg, key := ConfigOf(pairs[k], worker), KeyOf(pairs, k);
    var ltp' := Track(ltp, cfg, key, delta);
    var u := UpdateOf(g, pairs, store, worker, ltp'.potentiated, k);
    var r := updates + [u];
    forall i | 0 <= i < |updates|
      ensures updates[i].key.pair != k
      ensures updates[i] == UpdateOf(g, pairs, store, worker, ltp'.potentiated, updates[i].key.pair)
    {
      assert updates[i].key.pair in Planned(updates);
    }
    PlannedSnoc(updates, u);
  }

  lemma PlannedSnoc(updates: seq<Update>, u: Update)
    ensures Planned(updates + [u]) == Planned(updates) + {u.key.pair}
  {
    var r := updates + [u];
    forall p | p in Planned(updates) + {u.key.pair}
      ensures p in Planned(r)
    {
      if p == u.key.pair {
        assert r[|updates|].key.pair == p;
      } else {
        var i :| 0 <= i < |updates| && updates[i].key.pair == p;
        assert r[i].key.pair == p;
      }
    }
  }

  /** The LTP calls a plan makes: one for each update whose pair is tracked, in order. */
  function CallsOf(pairs: Pairs, worker: Option<LtpConfig>, updates: seq<Update>): seq<Call> {
    if updates == [] then []
    else
      var u := updates[|updates| - 1];
      CallsOf(pairs, worker, updates[..|updates| - 1]) +
      if u.key.pair in pairs && Tracks(ConfigOf(pairs[u.key.pair], worker))
      then [Call(u.key, u.countDelta, ConfigOf(pairs[u.key.pair], worker).value.threshold)] else []
  }

  lemma NoCalls(pairs: Pairs, worker: Option<LtpConfig>, past: seq<Call>)
    ensures past + CallsOf(pairs, worker, []) == past
  {
  }

  /** Tracking the pair of one more update is one more call. */
  lemma TrackIsCall(pairs: Pairs, worker: Option<LtpConfig>, past: seq<Call>, updates: seq<Update>, u: Update)
    requires u.key.pair in pairs
    ensures Track(After(past + CallsOf(pairs, worker, updates)), ConfigOf(pairs[u.key.pair], worker), u.key,
                  u.countDelta)
         == After(past + CallsOf(pairs, worker, updates + [u]))
  {
    hide AddCount;
    var calls, all := past + CallsOf(pairs, worker, updates), past + CallsOf(pairs, worker, updates + [u]);
    assert (updates + [u])[..|updates + [u]| - 1] == updates;
    if Tracks(ConfigOf(pairs[u.key.pair], worker)) {
      assert all[..|all| - 1] == calls;
    } else {
      assert all == calls;
    }
  }

  /** The update loop, over the pairs in any order; `past` are the LTP calls made so far. */
  method PlanUpdates(g: Growth, pairs: Pairs, store: Store, faults: set<LtpKey>, ltp: Ltp, worker: Option<LtpConfig>,
                     notify: bool, ghost past: seq<Call>)
    returns (updates: seq<Update>, callbacks: seq<Callback>, unread: set<PairKey>, ltp': Ltp)
    requires ltp == After(past)
    ensures ltp' == After(past + CallsOf(pairs, worker, updates))
    ensures PlanIs(g, pairs, store, worker, ltp', updates)
    ensures Planned(updates) == Learnable(g, pairs, faults)
    ensures unread == Unreadable(g, pairs, faults)
    ensures CallbacksFor(store, notify, updates, callbacks)
  {
    hide NewWeight, AddCount, Floored, After, CallsOf;
    updates, callbacks, unread, ltp' := [], [], {}, ltp;
    NoCalls(pairs, worker, past);
    var rest := pairs.Keys;
    while rest != {}
      invariant rest <= pairs.Keys && ltp' == After(past + CallsOf(pairs, worker, updates))
      invariant PlanIs(g, pairs, store, worker, ltp', updates)
      invariant Planned(updates) == Learnable(g, pairs, faults) - rest
      invariant unread == Unreadable(g, pairs, faults) - rest
      invariant CallbacksFor(store, notify, updates, callbacks)
      decreases rest
    {
      var k :| k in rest;
      rest := rest - {k};
      var stats, key := pairs[k], KeyOf(pairs, k);
      if stats.signal < g.epsilon {
        continue;
      }
      if key in faults {
        unread := unread + {k};
        continue;
      }
      var current := EdgeOf(store, key).weight;
      if current <= 0.0 {
        current := COLD_START;
      }
      var newWeight := NewWeight(g, EdgeOf(store, key).weight, stats.signal);
      var delta := CountDelta(stats.count);
      PlanStep(g, pairs, store, worker, ltp', updates, k, delta);
      var cfg := ConfigOf(stats, worker);
      ltp' := Track(ltp', cfg, key, delta);
      newWeight := Floored(newWeight, cfg, key in ltp'.potentiated);
      TrackIsCall(pairs, worker, past, updates, Update(key, newWeight, delta, LastAt(stats.at)));
      updates := updates + [Update(key, newWeight, delta, LastAt(stats.at))];
      if notify {
        callbacks := callbacks + [Callback(|updates| - 1, stats.ws, k.a, current, newWeight)];
      }
    }
  }

  // ---------- Commit and callbacks ----------

  /** The store after the updates that persist. */
  function ApplyPlan(store: Store, updates: seq<Update>, commit: Commit, now: int): Store {
    if updates == [] then store
    else
      var i := |updates| - 1;
      var before := ApplyPlan(store, updates[..i], commit, now);
      var u := updates[i];
      if commit.Persists(i) then before[u.key := Apply(EdgeOf(before, u.key), u.weight, u.countDelta, u.lastAt, now)]
      else before
  }

  /** The callbacks whose update persisted, in order. */
  function Fired(callbacks: seq<Callback>, commit: Commit): seq<Callback> {
    if callbacks == [] then []
    else
      var last := callbacks[|callbacks| - 1];
      Fired(callbacks[..|callbacks| - 1], commit) + if commit.Persists(last.idx) then [last] else []
  }

  class HebbianWorker {
    var store: Store
    var ltp: Ltp
    var fired: seq<Callback>
    ghost var history: seq<Call>
    const growth: Growth
    const ltpCfg: Option<LtpConfig>
    const notify: bool

    constructor (store: Store, growth: Growth, ltpCfg: Option<LtpConfig>, notify: bool)
      ensures this.store == store && this.growth == growth && this.ltpCfg == ltpCfg && this.notify == notify
      ensures Valid() && history == [] && fired == []
    {
      this.store, this.growth, this.ltpCfg, this.notify := store, growth, ltpCfg, notify;
      ltp, fired, history := Ltp(map[], {}), [], [];
    }

    /** The LTP state is what the calls of all flushes so far have made of it. */
    ghost predicate Valid()
      reads this
    {
      ltp == After(history)
    }

    /** Fire the callbacks of the updates that persisted. */
    method FireCallbacks(callbacks: seq<Callback>, commit: Commit)
      modifies this`fired
      ensures fired == old(fired) + Fired(callbacks, commit)
    {
      ghost var start := fired;
      for i := 0 to |callbacks|
        invariant fired == start + Fired(callbacks[..i], commit)
      {
        assert callbacks[..i + 1][..i] == callbacks[..i];
        if !commit.Persists(callbacks[i].idx) {
          continue;
        }
        fired := fired + [callbacks[i]];
      }
      assert callbacks[..|callbacks|] == callbacks;
    }

    /** One flush. `faults` are the unreadable pairs, `commit` the store's answer,
        `now` its clock; updates and callbacks are returned for the contract. */
    method ProcessBatch(batch: seq<Event>, faults: set<LtpKey>, commit: Commit, now: int)
      returns (err: bool, ghost updates: seq<Update>, ghost callbacks: seq<Callback>)
      requires Valid()
      modifies this
      ensures Valid()
      ensures var pairs := Aggregate(map[], Contributions(batch));
              && history == old(history) + CallsOf(pairs, ltpCfg, updates)
              && PlanIs(growth, pairs, old(store), ltpCfg, ltp, updates)
              && Planned(updates) == Learnable(growth, pairs, faults)
              && (err <==> Unreadable(growth, pairs, faults) != {} || (updates != [] && commit != Applied))
      ensures CallbacksFor(old(store), notify, updates, callbacks)
      ensures store == ApplyPlan(old(store), updates, commit, now)
      ensures fired == old(fired) + Fired(callbacks, commit)
    {
      hide PlanIs, Planned, CallbacksFor, Learnable, Unreadable, Aggregate, Contributions, After, CallsOf;
      var pairs := AggregateBatch(batch);
      var plan, cbs, unread, ltp' := PlanUpdates(growth, pairs, store, faults, ltp, ltpCfg, notify, history);
      ltp, history := ltp', history + CallsOf(pairs, ltpCfg, plan);
      updates, callbacks := plan, cbs;
      err := unread != {};
      if |plan| > 0 {
        store := ApplyPlan(store, plan, commit, now);
        err := err || !commit.Applied?;
      }
      FireCallbacks(cbs, commit);
    }
  }

  // ---------- What a flush guarantees, for every answer of the store ----------

  /** Callbacks fire for exactly the persisted updates. */
  lemma {:induction false} FiredIsPersisted(callbacks: seq<Callback>, commit: Commit, c: Callback)
    ensures c in Fired(callbacks, commit) <==> c in callbacks && commit.Persists(c.idx)
  {
    if callbacks != [] {
      FiredIsPersisted(callbacks[..|callbacks| - 1], commit, c);
      assert callbacks == callbacks[..|callbacks| - 1] + [callbacks[|callbacks| - 1]];
    }
  }

  /** So a worker that notifies announces the update of pair `i` iff it landed. */
  lemma AnnouncedIffPersisted(store: Store, updates: seq<Update>, callbacks: seq<Callback>, commit: Commit, i: nat)
    requires CallbacksFor(store, true, updates, callbacks) && i < |updates|
    ensures CallbackOf(store, i, updates[i]) in Fired(callbacks, commit) <==> commit.Persists(i)
  {
    FiredIsPersisted(callbacks, commit, CallbackOf(store, i, updates[i]));
    assert callbacks[i] in callbacks;
  }

  ghost predicate DistinctKeys(updates: seq<Update>) {
    forall i, j | 0 <= i < j < |updates| :: updates[i].key != updates[j].key
  }

  /** Each persisted update changes its own edge; everything else is untouched. */
  lemma {:induction false} PlanTouchesOnlyItsEdges(store: Store, updates: seq<Update>, commit: Commit, now: int,
                                                   key: LtpKey)
    requires DistinctKeys(updates)
    ensures (forall i | 0 <= i < |updates| :: updates[i].key != key) ==>
              EdgeOf(ApplyPlan(store, updates, commit, now), key) == EdgeOf(store, key)
    ensures forall i | 0 <= i < |updates| && updates[i].key == key ::
              EdgeOf(ApplyPlan(store, updates, commit, now), key) ==
              if commit.Persists(i) then
                Apply(EdgeOf(store, key), updates[i].weight, updates[i].countDelta, updates[i].lastAt, now)
              else EdgeOf(store, key)
  {
    hide Apply;
    if updates != [] {
      var n := |updates| - 1;
      PlanTouchesOnlyItsEdges(store, updates[..n], commit, now, key);
    }
  }

  /** An unreadable pair is neither updated nor re-seeded. */
  lemma UnreadableIsUntouched(g: Growth, pairs: Pairs, store: Store, faults: set<LtpKey>, worker: Option<LtpConfig>,
                              ltp: Ltp, updates: seq<Update>, commit: Commit, now: int, key: LtpKey)
    requires PlanIs(g, pairs, store, worker, ltp, updates) && Planned(updates) == Learnable(g, pairs, faults)
    requires key in faults
    ensures EdgeOf(ApplyPlan(store, updates, commit, now), key) == EdgeOf(store, key)
  {
    forall i | 0 <= i < |updates|
      ensures updates[i].key != key
    {
      assert updates[i].key.pair in Planned(updates);
    }
    PlanTouchesOnlyItsEdges(store, updates, commit, now, key);
  }

  /** Written weights lie in (0, 1], are not below the weight read (if at most 1), and
      reach the floor of an enabled, potentiated pair. */
  lemma WrittenWeights(g: Growth, pairs: Pairs, store: Store, worker: Option<LtpConfig>, ltp: Ltp,
                       updates: seq<Update>, i: nat)
    requires g.Valid() && PlanIs(g, pairs, store, worker, ltp, updates) && i < |updates|
    requires var cfg := ConfigOf(pairs[updates[i].key.pair], worker); cfg.Some? ==> cfg.value.weightFloor <= 1.0
    ensures var u := updates[i];
            var read, cfg := EdgeOf(store, u.key).weight, ConfigOf(pairs[u.key.pair], worker);
            && 0.0 < u.weight <= 1.0
            && (read <= 1.0 ==> u.weight >= read)
            && (Tracks(cfg) && u.key in ltp.potentiated ==> u.weight >= cfg.value.weightFloor)
  {
    var u := updates[i];
    NewWeightBounds(g, EdgeOf(store, u.key).weight, pairs[u.key.pair].signal);
    hide NewWeight;
  }

  /** A pair once potentiated is never again written below its floor, whatever calls the
      flushes in between have made. */
  lemma FloorHoldsForever(g: Growth, pairs: Pairs, store: Store, worker: Option<LtpConfig>,
                          history: seq<Call>, more: seq<Call>, updates: seq<Update>, i: nat)
    requires g.Valid() && i < |updates| && updates[i].key in After(history).potentiated
    requires PlanIs(g, pairs, store, worker, After(history + more), updates)
    requires var cfg := ConfigOf(pairs[updates[i].key.pair], worker); Tracks(cfg) && cfg.value.weightFloor <= 1.0
    ensures updates[i].weight >= ConfigOf(pairs[updates[i].key.pair], worker).value.weightFloor
  {
    PotentiationPersists(history, more);
    WrittenWeights(g, pairs, store, worker, After(history + more), updates, i);
  }

  /** What one planned update does to the counter of a tracked pair. */
  lemma TrackCounts(past: seq<Call>, cfg: Option<LtpConfig>, u: Update, key: LtpKey)
    requires key in After(past).counts
    ensures var s := Track(After(past), cfg, u.key, u.countDelta);
            && key in s.counts
            && CountOf(s, key) ==
               if u.key == key && Tracks(cfg) then Min(CountOf(After(past), key) + u.countDelta, MAX_UINT32)
               else CountOf(After(past), key)
  {
    CountsAreSums(past, key);
    if Tracks(cfg) {
      StepFacts(After(past), Call(u.key, u.countDelta, cfg.value.threshold), key);
    }
    hide After, AddCount;
  }

  /** What a flush does to the counter of a pair that has one: nothing if it was not
      planned or not tracked, otherwise one capped addition of the batch's count. */
  lemma {:induction false} FlushCounts(pairs: Pairs, worker: Option<LtpConfig>, history: seq<Call>,
                                       updates: seq<Update>, key: LtpKey)
    requires DistinctKeys(updates) && key in After(history).counts
    requires forall i | 0 <= i < |updates| :: updates[i].key.pair in pairs
    ensures var before, after := After(history), After(history + CallsOf(pairs, worker, updates));
            && key in after.counts
            && (forall i | 0 <= i < |updates| && updates[i].key == key ::
                  CountOf(after, key) == if Tracks(ConfigOf(pairs[key.pair], worker))
                                         then Min(CountOf(before, key) + updates[i].countDelta, MAX_UINT32)
                                         else CountOf(before, key))
            && ((forall i | 0 <= i < |updates| :: updates[i].key != key) ==>
                  CountOf(after, key) == CountOf(before, key))
    decreases |updates|
  {
    hide After, CallsOf, Track, CountOf;
    if updates == [] {
      NoCalls(pairs, worker, history);
    } else {
      var init, u := updates[..|updates| - 1], updates[|updates| - 1];
      assert updates == init + [u];
      FlushCounts(pairs, worker, history, init, key);
      TrackIsCall(pairs, worker, history, init, u);
      TrackCounts(history + CallsOf(pairs, worker, init), ConfigOf(pairs[u.key.pair], worker), u, key);
    }
  }

  lemma {:induction false} OneThreshold(pairs: Pairs, cfg: LtpConfig, updates: seq<Update>)
    requires forall k | k in pairs :: pairs[k].ltp.None?
    ensures FixedThreshold(CallsOf(pairs, Some(cfg), updates), cfg.threshold)
  {
    if updates != [] {
      OneThreshold(pairs, cfg, updates[..|updates| - 1]);
    }
  }

  /** A worker whose events carry no configuration counts every pair to one threshold; after
      each flush its potentiated pairs are those that reached it. */
  lemma WorkerCountDecides(pairs: Pairs, cfg: LtpConfig, history: seq<Call>, updates: seq<Update>, key: LtpKey)
    requires 0 < cfg.threshold <= MAX_UINT32 && FixedThreshold(history, cfg.threshold)
    requires forall k | k in pairs :: pairs[k].ltp.None?
    ensures FixedThreshold(history + CallsOf(pairs, Some(cfg), updates), cfg.threshold)
    ensures PotentiatedByCount(After(history + CallsOf(pairs, Some(cfg), updates)), key, cfg.threshold)
  {
    OneThreshold(pairs, cfg, updates);
    CountDecides(history + CallsOf(pairs, Some(cfg), updates), key, cfg.threshold);
  }

  /** The pair should have learned, and did not. */
  ghost predicate DidNotLearn(g: Growth, pairs: Pairs, faults: set<LtpKey>, updates: seq<Update>, commit: Commit,
                              k: PairKey) {
    && k in pairs && IsAudible(g, pairs, k)
    && (KeyOf(pairs, k) in faults || exists i: nat :: i < |updates| && updates[i].key.pair == k && !commit.Persists(i))
  }

  /** The store reported skips and named none of the updates it was given. */
  ghost predicate EmptySkip(updates: seq<Update>, commit: Commit) {
    updates != [] && commit.Skipped? && forall i: nat | i < |updates| :: i !in commit.indices
  }

  /** The error is returned exactly when some pair failed, or a skip report named none. */
  lemma ErrorMeansAPairFailed(g: Growth, pairs: Pairs, store: Store, faults: set<LtpKey>, worker: Option<LtpConfig>,
                              ltp: Ltp, updates: seq<Update>, commit: Commit)
    requires PlanIs(g, pairs, store, worker, ltp, updates) && Planned(updates) == Learnable(g, pairs, faults)
    ensures Unreadable(g, pairs, faults) != {} || (updates != [] && commit != Applied) <==>
            (exists k :: DidNotLearn(g, pairs, faults, updates, commit, k)) || EmptySkip(updates, commit)
  {
    if Unreadable(g, pairs, faults) != {} {
      var k :| k in Unreadable(g, pairs, faults);
      assert DidNotLearn(g, pairs, faults, updates, commit, k);
    }
    if updates != [] && commit != Applied && !EmptySkip(updates, commit) {
      var i: nat := 0;
      if commit.Skipped? {
        i :| i in commit.indices && i < |updates|;
      }
      var k := updates[i].key.pair;
      assert k in Planned(updates);
      assert !commit.Persists(i);
      assert DidNotLearn(g, pairs, faults, updates, commit, k);
    }
    if k :| DidNotLearn(g, pairs, faults, updates, commit, k) {
      assert KeyOf(pairs, k) in faults ==> k in Unreadable(g, pairs, faults);
    }
  }

  /** Without LTP and without faults a flush is Learn on every pair. */
  lemma FlushLearns(g: Growth, pairs: Pairs, store: Store, ltp: Ltp, updates: seq<Update>, now: int, k: PairKey)
    requires g.Valid() && PlanIs(g, pairs, store, None, ltp, updates) && Planned(updates) == Learnable(g, pairs, {})
    requires k in pairs && pairs[k].ltp.None?
    ensures EdgeOf(ApplyPlan(store, updates, Applied, now), KeyOf(pairs, k)) ==
            Learn(g, EdgeOf(store, KeyOf(pairs, k)), Recorded(pairs, k), now)
  {
    hide NewWeight, Apply;
    PlanTouchesOnlyItsEdges(store, updates, Applied, now, KeyOf(pairs, k));
    if IsAudible(g, pairs, k) {
      assert k in Planned(updates);
      var i :| 0 <= i < |updates| && updates[i].key.pair == k;
      assert updates[i] == UpdateOf(g, pairs, store, None, ltp.potentiated, k);
    } else {
      forall i | 0 <= i < |updates|
        ensures updates[i].key != KeyOf(pairs, k)
      {
        assert updates[i].key.pair in Planned(updates);
      }
    }
  }

  /** The store a fault-free flush of `batch` leaves, with any plan it may choose. */
  ghost predicate Flushes(g: Growth, store: Store, batch: seq<Event>, ltp: Ltp, updates: seq<Update>, now: int,
                          after: Store) {
    var pairs := Aggregate(map[], Contributions(batch));
    && PlanIs(g, pairs, store, None, ltp, updates)
    && Planned(updates) == Learnable(g, pairs, {})
    && after == ApplyPlan(store, updates, Applied, now)
  }

  lemma FlushLearnsSummary(g: Growth, store: Store, batch: seq<Event>, ltp: Ltp, updates: seq<Update>, now: int,
                           after: Store, k: PairKey, ws: Workspace)
    requires g.Valid() && Flushes(g, store, batch, ltp, updates, now, after) && Owned(batch, k, ws, None)
    ensures EdgeOf(after, LtpKey(ws, k)) == Learn(g, EdgeOf(store, LtpKey(ws, k)), BatchSummary(batch, k), now)
  {
    hide Aggregate, Contributions, BatchSummary, Owned;
    var pairs := Aggregate(map[], Contributions(batch));
    BatchRecorded(batch, k);
    BatchOwner(batch, k, ws, None);
    if k in pairs {
      FlushLearns(g, pairs, store, ltp, updates, now, k);
    } else {
      PlanTouchesOnlyItsEdges(store, updates, Applied, now, LtpKey(ws, k));
    }
  }

  lemma OwnedParts(a: seq<Event>, b: seq<Event>, k: PairKey, ws: Workspace)
    requires Owned(a + b, k, ws, None)
    ensures Owned(a, k, ws, None) && Owned(b, k, ws, None)
  {
    hide Touches;
    assert forall i | 0 <= i < |a| :: (a + b)[i] == a[i];
    assert forall i | 0 <= i < |b| :: (a + b)[|a| + i] == b[i];
  }

  /** Flushing A and then B leaves a pair's edge exactly as flushing A ++ B, whatever
      order the pairs are visited in and whatever the store's clock reads. */
  lemma FlushesMayBeSplit(g: Growth, a: seq<Event>, b: seq<Event>, k: PairKey, ws: Workspace,
                          now1: int, now2: int, now3: int,
                          s0: Store, l1: Ltp, u1: seq<Update>, s1: Store, l2: Ltp, u2: seq<Update>, s2: Store,
                          l3: Ltp, u3: seq<Update>, s3: Store)
    requires g.Valid() && TimedBatch(a, k) && TimedBatch(b, k) && Audible(g, a, k) && Audible(g, b, k)
    requires Owned(a + b, k, ws, None)
    requires Flushes(g, s0, a, l1, u1, now1, s1) && Flushes(g, s1, b, l2, u2, now2, s2)
    requires Flushes(g, s0, a + b, l3, u3, now3, s3)
    ensures EdgeOf(s2, LtpKey(ws, k)) == EdgeOf(s3, LtpKey(ws, k))
  {
    hide Flushes, Owned, Learn, BatchSummary, Audible, TimedBatch;
    OwnedParts(a, b, k, ws);
    FlushLearnsSummary(g, s0, a, l1, u1, now1, s1, k, ws);
    FlushLearnsSummary(g, s1, b, l2, u2, now2, s2, k, ws);
    FlushLearnsSummary(g, s0, a + b, l3, u3, now3, s3, k, ws);
    BatchMayBeSplit(g, EdgeOf(s0, LtpKey(ws, k)), a, b, k, now1, now2, now3);
  }

  /** Two flushes of a quiet event leave the edge alone; one flush of both does not. */
  lemma QuietFlushesDiffer(g: Growth, x: Id, y: Id, ws: Workspace, at: int, now1: int, now2: int, now3: int,
                           s0: Store, l1: Ltp, u1: seq<Update>, s1: Store, l2: Ltp, u2: seq<Update>, s2: Store,
                           l3: Ltp, u3: seq<Update>, s3: Store)
    requires g.Valid() && g.epsilon >= 2 && EdgeOf(s0, LtpKey(ws, CanonicalPair(x, y))).count < MAX_UINT32
    requires var half := [QuietEvent(g, x, y, ws, at)];
             && Flushes(g, s0, half, l1, u1, now1, s1) && Flushes(g, s1, half, l2, u2, now2, s2)
             && Flushes(g, s0, half + half, l3, u3, now3, s3)
    ensures var key := LtpKey(ws, CanonicalPair(x, y));
            EdgeOf(s2, key) == EdgeOf(s0, key) && EdgeOf(s3, key) != EdgeOf(s0, key)
  {
    hide Flushes, Learn, BatchSummary, Touches;
    var half, k := [QuietEvent(g, x, y, ws, at)], CanonicalPair(x, y);
    FlushLearnsSummary(g, s0, half, l1, u1, now1, s1, k, ws);
    FlushLearnsSummary(g, s1, half, l2, u2, now2, s2, k, ws);
    FlushLearnsSummary(g, s0, half + half, l3, u3, now3, s3, k, ws);
    QuietHalvesLearnTogether(g, EdgeOf(s0, LtpKey(ws, k)), x, y, ws, at, now1, now2, now3);
  }
}
