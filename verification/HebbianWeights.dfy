/** What a flush stores, in closed form: the weight as a power of the growth base, the
    counter and the stamp, and what the callbacks announce. */
module HebbianWeights {

  import opened Common
  import opened LtpCounters
  import opened Hebbian
  import opened HebbianLearning
  import opened HebbianWorkers

  // ---------- The weight as a power ----------

  function Pow(base: real, n: nat): real {
    if n == 0 then 1.0 else Pow(base, n - 1) * base
  }

  lemma {:induction false} GrowIsPow(base: real, w: real, n: nat)
    ensures Grow(base, w, n) == w * Pow(base, n)
  {
    if n > 0 {
      GrowIsPow(base, w, n - 1);
    }
  }

  lemma {:induction false} PowGrows(base: real, n: nat)
    requires base > 1.0
    ensures Pow(base, n) >= 1.0 && (n > 0 ==> Pow(base, n) >= base)
  {
    if n > 0 {
      PowGrows(base, n - 1);
      TimesAtLeast(Pow(base, n - 1), base);
    }
  }

  lemma TimesAtLeast(x: real, y: real)
    requires x >= 1.0 && y > 0.0
    ensures x * y >= y
  {
    assert x * y - y == (x - 1.0) * y;
  }

  /** The weight a pair starts from. */
  function Start(w: real): real {
    if w <= 0.0 then 0.01 else w
  }

  /** The starting weight times the growth factor, at most 1. */
  function Strengthened(start: real, factor: real): real {
    if start * factor > 1.0 then 1.0 else start * factor
  }

  function Larger(x: real, y: real): real {
    if x > y then x else y
  }

  lemma CappedProduct(start: real, grown: real, factor: real)
    requires grown == start * factor
    ensures Cap(grown) == Strengthened(start, factor)
  {
  }

  lemma StrengthenedGrows(start: real, factor: real)
    requires factor > 1.0 && 0.0 < start < 1.0
    ensures Strengthened(start, factor) > start
  {
    assert start * factor - start == start * (factor - 1.0);
  }

  /** The update is multiplicative and capped; below 1 it grows strictly. */
  lemma NewWeightIsPower(g: Growth, w: real, signal: nat)
    requires g.Valid()
    ensures NewWeight(g, w, signal) == Strengthened(Start(w), Pow(g.base, signal))
    ensures signal == 0 ==> NewWeight(g, w, signal) == if w <= 0.0 then 0.01 else if w > 1.0 then 1.0 else w
    ensures signal == 1 ==> NewWeight(g, w, signal) == Strengthened(Start(w), g.base)
    ensures signal > 0 && Start(w) < 1.0 ==> NewWeight(g, w, signal) > Start(w)
  {
    GrowIsPow(g.base, Start(w), signal);
    assert Seed(w) == Start(w);
    CappedProduct(Start(w), Grow(g.base, Start(w), signal), Pow(g.base, signal));
    PowGrows(g.base, signal);
    assert signal == 1 ==> Pow(g.base, 0) == 1.0 && Pow(g.base, signal) == g.base;
    assert signal == 0 ==> Pow(g.base, signal) == 1.0 && Strengthened(Start(w), 1.0) == Cap(Start(w));
    if signal > 0 && Start(w) < 1.0 {
      StrengthenedGrows(Start(w), Pow(g.base, signal));
    }
    hide Grow, Pow, Strengthened;
  }

  /** At the learning rate of 0.01 one whole co-activation takes 0.5 to 0.505 and a pair
      without an edge to 0.0101. */
  lemma OneCoActivation(epsilon: nat)
    requires epsilon >= 1
    ensures NewWeight(Growth(1.01, epsilon), 0.5, 1) == 0.505
    ensures NewWeight(Growth(1.01, epsilon), 0.0, 1) == 0.0101
  {
    NewWeightIsPower(Growth(1.01, epsilon), 0.5, 1);
    NewWeightIsPower(Growth(1.01, epsilon), 0.0, 1);
    hide NewWeight;
  }

  // ---------- What a flush stores ----------

  /** The weight, counter and stamp that a pair's statistics give an edge, before LTP. */
  function Learned(g: Growth, e: Edge, s: Stats, now: int): Edge {
    Edge(Strengthened(Start(e.weight), Pow(g.base, s.signal)),
         Min(e.count + s.count, 0xFFFF_FFFF),
         Max(e.stamp, if 0 < s.at <= 0x7FFF_FFFF then s.at else now))
  }

  lemma AppliedUpdate(g: Growth, pairs: Pairs, store: Store, worker: Option<LtpConfig>, potentiated: set<LtpKey>,
                      k: PairKey, now: int)
    requires g.Valid() && k in pairs
    ensures var u, s := UpdateOf(g, pairs, store, worker, potentiated, k), pairs[k];
            var cfg := if s.ltp.Some? then s.ltp else worker;
            var learned := Learned(g, EdgeOf(store, u.key), s, now);
            && u.key == LtpKey(s.ws, k)
            && Apply(EdgeOf(store, u.key), u.weight, u.countDelta, u.lastAt, now) ==
               if cfg.Some? && cfg.value.threshold > 0 && u.key in potentiated
               then learned.(weight := Larger(learned.weight, cfg.value.weightFloor))
               else learned
  {
    var e := EdgeOf(store, KeyOf(pairs, k));
    NewWeightIsPower(g, e.weight, pairs[k].signal);
    NewWeightBounds(g, e.weight, pairs[k].signal);
    hide NewWeight, Strengthened;
  }

  /** Every persisted update stores exactly that, lifted to the floor of a tracked and
      potentiated pair; an update that does not persist stores nothing. */
  lemma StoredEdge(g: Growth, pairs: Pairs, store: Store, worker: Option<LtpConfig>, ltp: Ltp, updates: seq<Update>,
                   commit: Commit, now: int, i: nat)
    requires g.Valid() && PlanIs(g, pairs, store, worker, ltp, updates) && i < |updates|
    ensures var key := updates[i].key;
            var s, before := pairs[key.pair], EdgeOf(store, key);
            var cfg, learned := if s.ltp.Some? then s.ltp else worker, Learned(g, before, s, now);
            && key.ws == s.ws
            && EdgeOf(ApplyPlan(store, updates, commit, now), key) ==
               if !commit.Persists(i) then before
               else if cfg.Some? && cfg.value.threshold > 0 && key in ltp.potentiated
                    then learned.(weight := Larger(learned.weight, cfg.value.weightFloor))
               else learned
  {
    var u := updates[i];
    PlanTouchesOnlyItsEdges(store, updates, commit, now, u.key);
    assert u == UpdateOf(g, pairs, store, worker, ltp.potentiated, u.key.pair);
    AppliedUpdate(g, pairs, store, worker, ltp.potentiated, u.key.pair, now);
    hide UpdateOf, Learned, ApplyPlan, Apply;
  }

  /** So a pair that LTP leaves alone strictly gains until it saturates at 1. */
  lemma FlushStrengthens(g: Growth, pairs: Pairs, store: Store, worker: Option<LtpConfig>, ltp: Ltp,
                         updates: seq<Update>, commit: Commit, now: int, i: nat)
    requires g.Valid() && PlanIs(g, pairs, store, worker, ltp, updates) && i < |updates| && commit.Persists(i)
    requires pairs[updates[i].key.pair].signal >= g.epsilon && EdgeOf(store, updates[i].key).weight < 1.0
    ensures EdgeOf(ApplyPlan(store, updates, commit, now), updates[i].key).weight >
            EdgeOf(store, updates[i].key).weight
  {
    StoredEdge(g, pairs, store, worker, ltp, updates, commit, now, i);
    var s, e := pairs[updates[i].key.pair], EdgeOf(store, updates[i].key);
    NewWeightIsPower(g, e.weight, s.signal);
    hide NewWeight, Strengthened, ApplyPlan, PlanIs;
  }

  /** A callback fires exactly for a persisted update; it names the edge's source, the
      weight it had or started from, and the weight now stored. */
  lemma CallbackTellsStore(g: Growth, pairs: Pairs, store: Store, worker: Option<LtpConfig>, ltp: Ltp,
                           updates: seq<Update>, callbacks: seq<Callback>, commit: Commit, now: int, c: Callback)
    requires PlanIs(g, pairs, store, worker, ltp, updates) && CallbacksFor(store, true, updates, callbacks)
    ensures c in Fired(callbacks, commit) <==>
            && c.idx < |updates| && commit.Persists(c.idx)
            && var key := updates[c.idx].key;
               && c.ws == key.ws && c.id == key.pair.a
               && c.before == Start(EdgeOf(store, key).weight)
               && c.after == EdgeOf(ApplyPlan(store, updates, commit, now), key).weight
  {
    FiredIsPersisted(callbacks, commit, c);
    if c.idx < |updates| {
      PlanTouchesOnlyItsEdges(store, updates, commit, now, updates[c.idx].key);
    }
    hide Fired, ApplyPlan, NewWeight;
    if c.idx < |updates| && c == CallbackOf(store, c.idx, updates[c.idx]) {
      assert c == callbacks[c.idx];
    }
  }

  // ---------- What one event contributes ----------

  /** The signal of two engrams that fire together. */
  function Product(x: CoActivated, y: CoActivated): nat {
    x.score * y.score
  }

  /** Engrams `i` and `j` of the event make up the pair. */
  ghost predicate PairsUp(es: seq<CoActivated>, k: PairKey, i: int, j: int) {
    0 <= i < j < |es| && CanonicalPair(es[i].id, es[j].id) == k
  }

  lemma NoContribution(ev: Event, x: CoActivated, y: CoActivated, k: PairKey)
    requires CanonicalPair(x.id, y.id) != k
    ensures One(Contribute(ev, x, y), k) == NOTHING
  {
  }

  lemma OneContribution(ev: Event, x: CoActivated, y: CoActivated)
    ensures One(Contribute(ev, x, y), CanonicalPair(x.id, y.id)) == Summary(1, Product(x, y), Some(ev.at))
  {
  }

  lemma {:induction false} EachNothing(ev: Event, x: CoActivated, ys: seq<CoActivated>, k: PairKey)
    requires forall j | 0 <= j < |ys| :: CanonicalPair(x.id, ys[j].id) != k
    ensures EachSummary(ev, x, ys, k) == NOTHING
  {
    hide EachSummary, CanonicalPair, Contribute, One, Combine;
    if ys == [] {
      EachEmpty(ev, x, k);
    } else {
      EachSummaryStep(ev, x, ys, k);
      NoContribution(ev, x, ys[0], k);
      CombineLaws(NOTHING, NOTHING, NOTHING);
      EachNothing(ev, x, ys[1..], k);
    }
  }

  lemma EachEmpty(ev: Event, x: CoActivated, k: PairKey)
    ensures EachSummary(ev, x, [], k) == NOTHING && PairsSummary(ev, [], k) == NOTHING
  {
  }

  lemma {:induction false} PairsNothing(ev: Event, es: seq<CoActivated>, k: PairKey)
    requires forall i, j :: !PairsUp(es, k, i, j)
    ensures PairsSummary(ev, es, k) == NOTHING
  {
    hide EachSummary, PairsSummary, CanonicalPair, Combine;
    CombineLaws(NOTHING, NOTHING, NOTHING);
    if es == [] {
      EachEmpty(ev, CoActivated(k.a, 0), k);
    } else {
      var tail := es[1..];
      PairsSummaryStep(ev, es, k);
      assert forall j | 0 <= j < |tail| && CanonicalPair(es[0].id, tail[j].id) == k :: PairsUp(es, k, 0, j + 1);
      EachNothing(ev, es[0], tail, k);
      assert forall i, j | PairsUp(tail, k, i, j) :: PairsUp(es, k, i + 1, j + 1);
      PairsNothing(ev, tail, k);
    }
  }

  lemma {:induction false} EachSingle(ev: Event, x: CoActivated, ys: seq<CoActivated>, k: PairKey, j: nat)
    requires j < |ys| && CanonicalPair(x.id, ys[j].id) == k
    requires forall l | 0 <= l < |ys| && CanonicalPair(x.id, ys[l].id) == k :: l == j
    ensures EachSummary(ev, x, ys, k) == Summary(1, Product(x, ys[j]), Some(ev.at))
  {
    hide EachSummary, CanonicalPair, Combine, One, Contribute, Product;
    EachSummaryStep(ev, x, ys, k);
    var s := EachSummary(ev, x, ys[1..], k);
    CombineLaws(s, NOTHING, NOTHING);
    CombineLaws(One(Contribute(ev, x, ys[0]), k), NOTHING, NOTHING);
    if j == 0 {
      OneContribution(ev, x, ys[0]);
      EachNothing(ev, x, ys[1..], k);
    } else {
      NoContribution(ev, x, ys[0], k);
      assert ys[1..][j - 1] == ys[j];
      EachSingle(ev, x, ys[1..], k, j - 1);
    }
  }

  /** A pair that two engrams of an event make up, and no other two, contributes the
      product of their scores, once, at the event's time. */
  lemma {:induction false} PairContributes(ev: Event, es: seq<CoActivated>, k: PairKey, i: int, j: int)
    requires PairsUp(es, k, i, j) && forall m, n | PairsUp(es, k, m, n) :: m == i && n == j
    ensures PairsSummary(ev, es, k) == Summary(1, Product(es[i], es[j]), Some(ev.at))
  {
    hide EachSummary, PairsSummary, CanonicalPair, Combine, Product;
    PairsSummaryStep(ev, es, k);
    var tail := es[1..];
    CombineLaws(EachSummary(ev, es[0], tail, k), NOTHING, NOTHING);
    CombineLaws(PairsSummary(ev, tail, k), NOTHING, NOTHING);
    assert forall m, n | PairsUp(tail, k, m, n) :: PairsUp(es, k, m + 1, n + 1);
    assert forall l | 0 <= l < |tail| && CanonicalPair(es[0].id, tail[l].id) == k :: PairsUp(es, k, 0, l + 1);
    if i == 0 {
      PairsNothing(ev, tail, k);
      EachSingle(ev, es[0], tail, k, j - 1);
    } else {
      EachNothing(ev, es[0], tail, k);
      assert PairsUp(tail, k, i - 1, j - 1) && tail[i - 1] == es[i] && tail[j - 1] == es[j];
      PairContributes(ev, tail, k, i - 1, j - 1);
    }
  }

  ghost predicate DistinctIds(es: seq<CoActivated>) {
    forall i, j | 0 <= i < j < |es| :: es[i].id != es[j].id
  }

  /** In a batch of one event without repeated engrams every two of them give their pair
      the product of their scores. */
  lemma EventTeachesPairs(ev: Event, i: nat, j: nat)
    requires DistinctIds(ev.engrams) && i < j < |ev.engrams|
    ensures BatchSummary([ev], CanonicalPair(ev.engrams[i].id, ev.engrams[j].id)) ==
            Summary(1, ev.engrams[i].score * ev.engrams[j].score, Some(ev.at))
  {
    var es := ev.engrams;
    var k := CanonicalPair(es[i].id, es[j].id);
    forall m, n | PairsUp(es, k, m, n)
      ensures m == i && n == j
    {
      LessTotal(es[m].id, es[n].id);
      LessTotal(es[i].id, es[j].id);
      hide Less;
    }
    PairContributes(ev, es, k, i, j);
    BatchSummaryOne(ev, k);
  }

  /** So two engrams that fire together strengthen their edge by the product of their
      scores: without LTP and faults the flush stores the seeded weight times the base to
      that power, at most 1. */
  lemma FiringTogetherWires(g: Growth, store: Store, ev: Event, ltp: Ltp, updates: seq<Update>, now: int, after: Store,
                            i: nat, j: nat)
    requires g.Valid() && DistinctIds(ev.engrams) && i < j < |ev.engrams| && ev.ltp.None?
    requires Flushes(g, store, [ev], ltp, updates, now, after)
    requires ev.engrams[i].score * ev.engrams[j].score >= g.epsilon
    ensures var key := LtpKey(ev.ws, CanonicalPair(ev.engrams[i].id, ev.engrams[j].id));
            EdgeOf(after, key).weight ==
            Strengthened(Start(EdgeOf(store, key).weight), Pow(g.base, ev.engrams[i].score * ev.engrams[j].score))
  {
    hide Flushes, BatchSummary, CanonicalPair, NewWeight, Touches, Strengthened;
    var k := CanonicalPair(ev.engrams[i].id, ev.engrams[j].id);
    EventTeachesPairs(ev, i, j);
    FlushLearnsSummary(g, store, [ev], ltp, updates, now, after, k, ev.ws);
    NewWeightIsPower(g, EdgeOf(store, LtpKey(ev.ws, k)).weight, ev.engrams[i].score * ev.engrams[j].score);
  }
}
