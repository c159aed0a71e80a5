/** What one pair learns from a batch: the multiplicative weight update, its saturation
    at 1, and when a batch may be split. */
module HebbianLearning {

  import opened Common
  import opened LtpCounters
  import opened Hebbian
  import opened HebbianOrder

  const COLD_START := 0.01
  const MAX_INT32 := 0x7FFF_FFFF

  /** `base` is the growth factor of one unit of signal; a pair below `epsilon`
      units learns nothing. */
  datatype Growth = Growth(base: real, epsilon: nat) {
    predicate Valid() {
      base > 1.0 && epsilon >= 1
    }
  }

  /** The weight times the base to the power n. */
  function Grow(base: real, weight: real, n: nat): real {
    if n == 0 then weight else base * Grow(base, weight, n - 1)
  }

  function Cap(w: real): real {
    if w > 1.0 then 1.0 else w
  }

  /** A weight of zero or less is a cold start. */
  function Seed(w: real): real {
    if w <= 0.0 then COLD_START else w
  }

  function NewWeight(g: Growth, weight: real, signal: nat): real {
    Cap(Grow(g.base, Seed(weight), signal))
  }

  /** A stored association, as far as learning touches it. */
  datatype Edge = Edge(weight: real, count: nat, stamp: int)

  const NO_EDGE := Edge(0.0, 0, 0)

  function CountDelta(count: nat): UInt32 {
    Min(count, MAX_UINT32)
  }

  /** A time that fits the stored width. */
  predicate Usable(at: int) {
    0 < at <= MAX_INT32
  }

  /** The stamp an update carries; 0 asks the store for its own clock. */
  function LastAt(at: int): int {
    if Usable(at) then at else 0
  }

  /** The store's side of an update: counts saturate and stamps never go back. */
  function Apply(e: Edge, weight: real, delta: nat, lastAt: int, now: int): Edge {
    Edge(weight, Min(e.count + delta, MAX_UINT32), Max(e.stamp, if lastAt != 0 then lastAt else now))
  }

  /** What a pair's record becomes under one batch that touched it as in `s`. */
  function Learn(g: Growth, e: Edge, s: Summary, now: int): Edge
    requires g.Valid()
  {
    if s.signal < g.epsilon then e
    else
      var at := if s.at.Some? then s.at.value else 0;
      Apply(e, NewWeight(g, e.weight, s.signal), CountDelta(s.count), LastAt(at), now)
  }

  // ---------- Growth ----------

  lemma {:induction false} GrowAtLeast(base: real, w: real, n: nat)
    requires base > 1.0 && w > 0.0
    ensures Grow(base, w, n) >= w
  {
    if n > 0 {
      GrowAtLeast(base, w, n - 1);
    }
  }

  lemma {:induction false} GrowTwice(base: real, w: real, m: nat, n: nat)
    ensures Grow(base, Grow(base, w, m), n) == Grow(base, w, m + n)
  {
    if n > 0 {
      GrowTwice(base, w, m, n - 1);
    }
  }

  /** A new weight lies in (0, 1] and is never below the weight read, if that was at
      most 1. */
  lemma NewWeightBounds(g: Growth, w: real, signal: nat)
    requires g.Valid()
    ensures 0.0 < NewWeight(g, w, signal) <= 1.0
    ensures w <= 1.0 ==> NewWeight(g, w, signal) >= w
  {
    GrowAtLeast(g.base, Seed(w), signal);
    hide Grow;
  }

  /** Growing in two capped steps is growing in one. */
  lemma NewWeightTwice(g: Growth, w: real, m: nat, n: nat)
    requires g.Valid()
    ensures NewWeight(g, NewWeight(g, w, m), n) == NewWeight(g, w, m + n)
  {
    var x := Grow(g.base, Seed(w), m);
    GrowAtLeast(g.base, Seed(w), m);
    GrowTwice(g.base, Seed(w), m, n);
    GrowAtLeast(g.base, x, n);
    GrowAtLeast(g.base, 1.0, n);
    hide Grow;
  }

  // ---------- Splitting a batch ----------

  /** A summary of contributions: nothing counted means nothing seen. */
  ghost predicate WellFormed(s: Summary) {
    s.count == 0 ==> s == NOTHING
  }

  /** The pair's latest event carries a time that fits the stored width. */
  ghost predicate Stamped(s: Summary) {
    s.count > 0 ==> s.at.Some? && Usable(s.at.value)
  }

  lemma {:induction false} SummaryWellFormed(cs: seq<Contribution>, k: PairKey)
    ensures WellFormed(SummaryOf(cs, k))
  {
    if cs != [] {
      var x, y := One(cs[0], k), SummaryOf(cs[1..], k);
      SummaryWellFormed(cs[1..], k);
      assert Combine(x, y).count == 0 ==> x == NOTHING && y == NOTHING;
      CombineLaws(NOTHING, NOTHING, NOTHING);
    }
  }

  /** Learning A and then B is learning A and B together, whatever the store's clock
      reads at each of the three. */
  lemma LearnTwice(g: Growth, e: Edge, a: Summary, b: Summary, now1: int, now2: int, now3: int)
    requires g.Valid() && Stamped(a) && Stamped(b)
    requires g.epsilon <= a.signal && g.epsilon <= b.signal && a.count > 0 && b.count > 0
    ensures Learn(g, Learn(g, e, a, now1), b, now2) == Learn(g, e, Combine(a, b), now3)
  {
    NewWeightTwice(g, e.weight, a.signal, b.signal);
    hide NewWeight;
  }

  /** When two flushes at store times `now1` and `now2` leave the stamp that one at
      `now2` leaves, for halves last active at `u` and `v`. Only the clock reading the
      store fills in for a half without a usable time can make a difference. */
  predicate StampsAgree(stamp: int, u: int, v: int, now1: int, now2: int) {
    if Usable(u) == Usable(v) then true
    else if Usable(u) then (if v > MAX_INT32 then u <= Max(stamp, now2) else now2 <= Max(stamp, u))
    else if u > MAX_INT32 then Max(stamp, Max(now1, v)) == Max(stamp, now2)
    else now1 <= Max(stamp, v)
  }

  /** Whatever the times: weight and count never depend on the split, and the stamp
      does not exactly when StampsAgree says so. */
  lemma LearnTwiceIff(g: Growth, e: Edge, a: Summary, b: Summary, now1: int, now2: int)
    requires g.Valid() && now1 <= now2
    requires g.epsilon <= a.signal && g.epsilon <= b.signal && a.at.Some? && b.at.Some?
    ensures var split, joint := Learn(g, Learn(g, e, a, now1), b, now2), Learn(g, e, Combine(a, b), now2);
            && split.weight == joint.weight && split.count == joint.count
            && (split == joint <==> StampsAgree(e.stamp, a.at.value, b.at.value, now1, now2))
  {
    NewWeightTwice(g, e.weight, a.signal, b.signal);
    hide NewWeight;
  }

  /** The store's clock is read only for a pair without a usable time. */
  lemma LearnClockFree(g: Growth, e: Edge, s: Summary, now1: int, now2: int)
    requires g.Valid() && Stamped(s) && WellFormed(s)
    ensures Learn(g, e, s, now1) == Learn(g, e, s, now2)
  {
    hide NewWeight;
  }

  /** So a split may be taken at any one clock reading. */
  lemma ClocksDoNotMatter(g: Growth, e: Edge, a: Summary, b: Summary, now1: int, now2: int, now3: int)
    requires g.Valid() && WellFormed(a) && WellFormed(b) && Stamped(a) && Stamped(b)
    ensures Learn(g, Learn(g, e, a, now1), b, now2) == Learn(g, Learn(g, e, a, now3), b, now3)
  {
    LearnClockFree(g, e, a, now1, now3);
    LearnClockFree(g, Learn(g, e, a, now1), b, now2, now3);
    hide Learn;
  }

  lemma SplitAtOneClock(g: Growth, e: Edge, a: Summary, b: Summary, now: int)
    requires g.Valid() && WellFormed(a) && WellFormed(b) && Stamped(a) && Stamped(b)
    requires e.count + a.count + b.count <= MAX_UINT32
    ensures Learn(g, Learn(g, e, a, now), b, now) == Learn(g, e, Combine(a, b), now) <==>
            || (g.epsilon <= a.signal && g.epsilon <= b.signal)
            || a.count == 0 || b.count == 0
            || a.signal + b.signal < g.epsilon
  {
    if g.epsilon <= a.signal && g.epsilon <= b.signal {
      LearnTwice(g, e, a, b, now, now, now);
    }
    hide NewWeight;
    CombineLaws(a, b, NOTHING);
    CombineLaws(b, a, NOTHING);
  }

  /** For a pair whose counter is not saturated, splitting the batch changes nothing
      exactly when each half alone passes epsilon, one half does not touch the pair,
      or the halves together stay below epsilon. */
  lemma SplitIsExact(g: Growth, e: Edge, a: Summary, b: Summary, now1: int, now2: int, now3: int)
    requires g.Valid() && WellFormed(a) && WellFormed(b) && Stamped(a) && Stamped(b)
    requires e.count + a.count + b.count <= MAX_UINT32
    ensures Learn(g, Learn(g, e, a, now1), b, now2) == Learn(g, e, Combine(a, b), now3) <==>
            || (g.epsilon <= a.signal && g.epsilon <= b.signal)
            || a.count == 0 || b.count == 0
            || a.signal + b.signal < g.epsilon
  {
    ClocksDoNotMatter(g, e, a, b, now1, now2, now3);
    SplitAtOneClock(g, e, a, b, now3);
    hide Learn;
  }

  /** Every event of the pair carries a usable time. */
  ghost predicate TimedBatch(batch: seq<Event>, k: PairKey) {
    forall i | 0 <= i < |batch| && Touches(batch[i], k) :: Usable(batch[i].at)
  }

  lemma {:induction false} SummaryStamped(cs: seq<Contribution>, k: PairKey, ev: Event)
    requires From(cs, ev) && (SummaryOf(cs, k).count > 0 ==> Usable(ev.at))
    ensures Stamped(SummaryOf(cs, k))
  {
    hide Combine;
    if cs != [] {
      var x, y := One(cs[0], k), SummaryOf(cs[1..], k);
      assert forall i | 0 <= i < |cs| - 1 :: cs[1..][i] == cs[i + 1];
      CombineCounts(x, y);
      SummaryStamped(cs[1..], k, ev);
      SummaryWellFormed(cs[1..], k);
      CombineStamped(x, y);
    }
  }

  lemma CombineStamped(x: Summary, y: Summary)
    requires Stamped(x) && Stamped(y) && WellFormed(x) && WellFormed(y)
    ensures Stamped(Combine(x, y))
  {
  }

  /** A batch in which every pair it touches passes epsilon. */
  ghost predicate Audible(g: Growth, batch: seq<Event>, k: PairKey) {
    BatchSummary(batch, k).count > 0 ==> g.epsilon <= BatchSummary(batch, k).signal
  }

  lemma LearnNothing(g: Growth, e: Edge, now: int)
    requires g.Valid()
    ensures Learn(g, e, NOTHING, now) == e
  {
  }

  /** Summaries may be learned apart when each is audible or empty. */
  lemma LearnSplit(g: Growth, e: Edge, x: Summary, y: Summary, now1: int, now2: int, now3: int)
    requires g.Valid() && WellFormed(x) && WellFormed(y) && Stamped(x) && Stamped(y)
    requires (x.count > 0 ==> g.epsilon <= x.signal) && (y.count > 0 ==> g.epsilon <= y.signal)
    ensures Learn(g, Learn(g, e, x, now1), y, now2) == Learn(g, e, Combine(x, y), now3)
  {
    ClocksDoNotMatter(g, e, x, y, now1, now2, now3);
    LearnNothing(g, e, now3);
    LearnNothing(g, Learn(g, e, x, now3), now3);
    hide Learn, Combine;
    CombineLaws(x, y, NOTHING);
    CombineLaws(y, x, NOTHING);
    if x.count > 0 && y.count > 0 {
      LearnTwice(g, e, x, y, now3, now3, now3);
    }
  }

  lemma {:induction false} BatchSummaryFacts(batch: seq<Event>, k: PairKey)
    requires TimedBatch(batch, k)
    ensures WellFormed(BatchSummary(batch, k)) && Stamped(BatchSummary(batch, k))
  {
    SummaryWellFormed(Contributions(batch), k);
    if batch != [] {
      var ev, tail := batch[0], batch[1..];
      var cs := PairsOf(ev, ev.engrams);
      assert forall i | 0 <= i < |batch| - 1 :: tail[i] == batch[i + 1];
      BatchSummaryFacts(tail, k);
      PairsFrom(ev, ev.engrams);
      SummaryStamped(cs, k, ev);
      SummaryWellFormed(cs, k);
      SummaryConcat(cs, Contributions(tail), k);
      CombineStamped(SummaryOf(cs, k), SummaryOf(Contributions(tail), k));
    }
  }

  /** Processing batches A and then B leaves every pair as processing A ++ B does,
      including saturation at 1 and the cold start. */
  lemma BatchMayBeSplit(g: Growth, e: Edge, a: seq<Event>, b: seq<Event>, k: PairKey, now1: int, now2: int, now3: int)
    requires g.Valid() && TimedBatch(a, k) && TimedBatch(b, k) && Audible(g, a, k) && Audible(g, b, k)
    ensures Learn(g, Learn(g, e, BatchSummary(a, k), now1), BatchSummary(b, k), now2) ==
            Learn(g, e, BatchSummary(a + b, k), now3)
  {
    hide Learn, BatchSummary, Combine, WellFormed, Stamped;
    BatchSummaryConcat(a, b, k);
    BatchSummaryFacts(a, k);
    BatchSummaryFacts(b, k);
    LearnSplit(g, e, BatchSummary(a, k), BatchSummary(b, k), now1, now2, now3);
  }

  /** An event whose one pair stays just below epsilon. */
  function QuietEvent(g: Growth, x: Id, y: Id, ws: Workspace, at: int): Event
    requires g.epsilon >= 1
  {
    Event(ws, at, [CoActivated(x, 1), CoActivated(y, g.epsilon - 1)], None)
  }

  lemma QuietSummary(g: Growth, x: Id, y: Id, ws: Workspace, at: int)
    requires g.epsilon >= 1
    ensures var ev, k := QuietEvent(g, x, y, ws, at), CanonicalPair(x, y);
            && Touches(ev, k)
            && BatchSummary([ev], k) == Summary(1, g.epsilon - 1, Some(at))
            && BatchSummary([ev] + [ev], k) == Summary(2, 2 * (g.epsilon - 1), Some(at))
  {
    var ev, k := QuietEvent(g, x, y, ws, at), CanonicalPair(x, y);
    PairTouches(ev, ev.engrams[0], ev.engrams[1]);
    BatchSummaryOne(ev, k);
    BatchSummaryConcat([ev], [ev], k);
  }

  /** Two such events teach nothing one at a time and something together. */
  lemma QuietHalvesLearnTogether(g: Growth, e: Edge, x: Id, y: Id, ws: Workspace, at: int, now1: int, now2: int,
                                 now3: int)
    requires g.Valid() && g.epsilon >= 2 && e.count < MAX_UINT32
    ensures var half, k := [QuietEvent(g, x, y, ws, at)], CanonicalPair(x, y);
            && Learn(g, Learn(g, e, BatchSummary(half, k), now1), BatchSummary(half, k), now2) == e
            && Learn(g, e, BatchSummary(half + half, k), now3).count > e.count
  {
    QuietSummary(g, x, y, ws, at);
    hide NewWeight, BatchSummary;
  }
}
