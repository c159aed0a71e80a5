/** Aggregation of co-activation events: one record per canonical pair, whatever the
    order of events and of engrams. Scores are natural numbers in a fixed unit, so a
    pair's signal is exact. */
module Hebbian {

  import opened Common
  import opened LtpCounters

  datatype LtpConfig = LtpConfig(threshold: int, weightFloor: real)
  datatype CoActivated = CoActivated(id: Id, score: nat)

  /** `at` is the event's time in seconds, 0 when it carries none. */
  datatype Event = Event(ws: Workspace, at: int, engrams: seq<CoActivated>, ltp: Option<LtpConfig>)

  // ---------- Canonical pairs ----------

  function CanonicalPair(x: Id, y: Id): PairKey {
    if Less(y, x) then PairKey(y, x) else PairKey(x, y)
  }

  /** A pair has one key, whichever engram comes first. */
  lemma CanonicalPairSymmetric(x: Id, y: Id)
    ensures CanonicalPair(x, y) == CanonicalPair(y, x)
  {
    LessTotal(x, y);
  }

  method ComputeCanonicalPair(x: Id, y: Id) returns (key: PairKey)
    ensures key == CanonicalPair(x, y)
  {
    for i := 0 to ID_LENGTH
      invariant Less(y, x) <==> Less(y[i..], x[i..])
    {
      assert x[i..][1..] == x[i + 1..] && y[i..][1..] == y[i + 1..];
      if x[i] < y[i] {
        return PairKey(x, y);
      } else if x[i] > y[i] {
        return PairKey(y, x);
      }
    }
    return PairKey(x, y);
  }

  // ---------- Contributions ----------

  /** What one pair of engrams of one event adds. */
  datatype Contribution = Contribution(key: PairKey, signal: nat, ws: Workspace, at: int, ltp: Option<LtpConfig>)

  function Contribute(ev: Event, x: CoActivated, y: CoActivated): Contribution {
    Contribution(CanonicalPair(x.id, y.id), x.score * y.score, ev.ws, ev.at, ev.ltp)
  }

  function WithEach(ev: Event, x: CoActivated, ys: seq<CoActivated>): seq<Contribution> {
    if ys == [] then [] else [Contribute(ev, x, ys[0])] + WithEach(ev, x, ys[1..])
  }

  function PairsOf(ev: Event, es: seq<CoActivated>): seq<Contribution> {
    if es == [] then [] else WithEach(ev, es[0], es[1..]) + PairsOf(ev, es[1..])
  }

  function Contributions(batch: seq<Event>): seq<Contribution> {
    if batch == [] then [] else PairsOf(batch[0], batch[0].engrams) + Contributions(batch[1..])
  }

  // ---------- Aggregation ----------

  datatype Stats = Stats(count: nat, signal: nat, ws: Workspace, ltp: Option<LtpConfig>, at: int)

  type Pairs = map<PairKey, Stats>

  function Add(pairs: Pairs, c: Contribution): Pairs {
    if c.key in pairs then
      var s := pairs[c.key];
      var ltp := if s.ltp.None? then c.ltp else s.ltp;
      pairs[c.key := Stats(s.count + 1, s.signal + c.signal, s.ws, ltp, Max(s.at, c.at))]
    else
      pairs[c.key := Stats(1, c.signal, c.ws, c.ltp, c.at)]
  }

  function Aggregate(pairs: Pairs, cs: seq<Contribution>): Pairs
    decreases |cs|
  {
    if cs == [] then pairs else Aggregate(Add(pairs, cs[0]), cs[1..])
  }

  lemma {:induction false} AggregateConcat(pairs: Pairs, a: seq<Contribution>, b: seq<Contribution>)
    ensures Aggregate(pairs, a + b) == Aggregate(Aggregate(pairs, a), b)
    decreases |a|
  {
    if a == [] {
      assert a + b == b;
    } else {
      assert (a + b)[1..] == a[1..] + b;
      AggregateConcat(Add(pairs, a[0]), a[1..], b);
    }
  }

  /** The inner loop over later engrams of the event. */
  method AggregateWithEach(pairs: Pairs, ev: Event, i: nat) returns (r: Pairs)
    requires i < |ev.engrams|
    ensures r == Aggregate(pairs, WithEach(ev, ev.engrams[i], ev.engrams[i + 1..]))
  {
    hide Contribute, Add;
    r := pairs;
    var es := ev.engrams;
    ghost var all := Aggregate(pairs, WithEach(ev, es[i], es[i + 1..]));
    for j := i + 1 to |es|
      invariant Aggregate(r, WithEach(ev, es[i], es[j..])) == all
    {
      assert es[j..][1..] == es[j + 1..];
      var c := ComputeContribution(ev, es[i], es[j]);
      ghost var rest := WithEach(ev, es[i], es[j + 1..]);
      assert ([c] + rest)[1..] == rest;
      r := AddContribution(r, c);
    }
    assert es[|es|..] == [];
  }

  method ComputeContribution(ev: Event, x: CoActivated, y: CoActivated) returns (c: Contribution)
    ensures c == Contribute(ev, x, y)
  {
    var key := ComputeCanonicalPair(x.id, y.id);
    c := Contribution(key, x.score * y.score, ev.ws, ev.at, ev.ltp);
  }

  method AddContribution(pairs: Pairs, c: Contribution) returns (r: Pairs)
    ensures r == Add(pairs, c)
  {
    if c.key in pairs {
      var s := pairs[c.key];
      var at := s.at;
      if c.at > at {
        at := c.at;
      }
      var ltp := s.ltp;
      if ltp.None? {
        ltp := c.ltp;
      }
      r := pairs[c.key := Stats(s.count + 1, s.signal + c.signal, s.ws, ltp, at)];
    } else {
      r := pairs[c.key := Stats(1, c.signal, c.ws, c.ltp, c.at)];
    }
  }

  method AggregateEvent(pairs: Pairs, ev: Event) returns (r: Pairs)
    ensures r == Aggregate(pairs, PairsOf(ev, ev.engrams))
  {
    r := pairs;
    var es := ev.engrams;
    ghost var all := Aggregate(pairs, PairsOf(ev, es));
    assert es[0..] == es;
    for i := 0 to |es|
      invariant Aggregate(r, PairsOf(ev, es[i..])) == all
    {
      assert es[i..][1..] == es[i + 1..];
      AggregateConcat(r, WithEach(ev, es[i], es[i + 1..]), PairsOf(ev, es[i + 1..]));
      r := AggregateWithEach(r, ev, i);
    }
    assert es[|es|..] == [];
  }

  method AggregateBatch(batch: seq<Event>) returns (r: Pairs)
    ensures r == Aggregate(map[], Contributions(batch))
  {
    r := map[];
    ghost var all := Aggregate(map[], Contributions(batch));
    assert batch[0..] == batch;
    for i := 0 to |batch|
      invariant Aggregate(r, Contributions(batch[i..])) == all
    {
      assert batch[i..][1..] == batch[i + 1..];
      AggregateConcat(r, PairsOf(batch[i], batch[i].engrams), Contributions(batch[i + 1..]));
      r := AggregateEvent(r, batch[i]);
    }
    assert batch[|batch|..] == [];
  }

  // ---------- What a pair's record says ----------

  /** How often, how strongly and how recently a pair was active. */
  datatype Summary = Summary(count: nat, signal: nat, at: Option<int>)

  const NOTHING := Summary(0, 0, None)

  function Latest(x: Option<int>, y: Option<int>): Option<int> {
    if x.None? then y else if y.None? then x else Some(Max(x.value, y.value))
  }

  function Combine(x: Summary, y: Summary): Summary {
    Summary(x.count + y.count, x.signal + y.signal, Latest(x.at, y.at))
  }

  function One(c: Contribution, k: PairKey): Summary {
    if c.key == k then Summary(1, c.signal, Some(c.at)) else NOTHING
  }

  function SummaryOf(cs: seq<Contribution>, k: PairKey): Summary {
    if cs == [] then NOTHING else Combine(One(cs[0], k), SummaryOf(cs[1..], k))
  }

  function Recorded(pairs: Pairs, k: PairKey): Summary {
    if k in pairs then Summary(pairs[k].count, pairs[k].signal, Some(pairs[k].at)) else NOTHING
  }

  lemma CombineLaws(x: Summary, y: Summary, z: Summary)
    ensures Combine(NOTHING, x) == x && Combine(x, NOTHING) == x
    ensures Combine(x, y) == Combine(y, x)
    ensures Combine(Combine(x, y), z) == Combine(x, Combine(y, z))
    ensures Combine(x, Combine(y, z)) == Combine(y, Combine(x, z))
  {
  }

  lemma CombineCounts(x: Summary, y: Summary)
    ensures Combine(x, y).count == x.count + y.count
  {
  }

  lemma {:induction false} AddElsewhere(pairs: Pairs, c: Contribution, k: PairKey)
    requires c.key != k
    ensures Recorded(Add(pairs, c), k) == Recorded(pairs, k) && One(c, k) == NOTHING
    ensures k in Add(pairs, c) <==> k in pairs
  {
  }

  lemma {:induction false} AddHere(pairs: Pairs, c: Contribution)
    ensures Recorded(Add(pairs, c), c.key) == Combine(Recorded(pairs, c.key), One(c, c.key))
    ensures c.key in Add(pairs, c) && One(c, c.key).count > 0
  {
  }

  lemma {:induction false} AggregateSummarises(pairs: Pairs, cs: seq<Contribution>, k: PairKey)
    ensures Recorded(Aggregate(pairs, cs), k) == Combine(Recorded(pairs, k), SummaryOf(cs, k))
    ensures k in Aggregate(pairs, cs) <==> k in pairs || SummaryOf(cs, k).count > 0
    decreases |cs|
  {
    hide Add, Recorded, One, Combine;
    if cs == [] {
      CombineLaws(Recorded(pairs, k), NOTHING, NOTHING);
    } else {
      CombineCounts(One(cs[0], k), SummaryOf(cs[1..], k));
      if cs[0].key == k {
        AddHere(pairs, cs[0]);
      } else {
        AddElsewhere(pairs, cs[0], k);
        CombineLaws(Recorded(pairs, k), NOTHING, NOTHING);
      }
      AggregateSummarises(Add(pairs, cs[0]), cs[1..], k);
      CombineLaws(Recorded(pairs, k), One(cs[0], k), SummaryOf(cs[1..], k));
    }
  }

  lemma {:induction false} SummaryConcat(a: seq<Contribution>, b: seq<Contribution>, k: PairKey)
    ensures SummaryOf(a + b, k) == Combine(SummaryOf(a, k), SummaryOf(b, k))
  {
    hide Combine, One;
    if a == [] {
      assert a + b == b;
      CombineLaws(SummaryOf(b, k), NOTHING, NOTHING);
    } else {
      assert (a + b)[1..] == a[1..] + b;
      SummaryConcat(a[1..], b, k);
      CombineLaws(One(a[0], k), SummaryOf(a[1..], k), SummaryOf(b, k));
    }
  }

  lemma {:induction false} ContributionsConcat(a: seq<Event>, b: seq<Event>)
    ensures Contributions(a + b) == Contributions(a) + Contributions(b)
  {
    if a == [] {
      assert a + b == b;
    } else {
      assert (a + b)[1..] == a[1..] + b;
      ContributionsConcat(a[1..], b);
    }
  }

  // ---------- Order does not matter ----------

  function Without<T>(s: seq<T>, i: nat): seq<T>
    requires i < |s|
  {
    s[..i] + s[i + 1..]
  }

  lemma WithoutTail<T>(s: seq<T>, i: nat)
    requires 0 < i < |s|
    ensures Without(s, i) == [s[0]] + Without(s[1..], i - 1)
    ensures Without(s, i)[1..] == Without(s[1..], i - 1)
  {
  }

  /** A permutation has the head of the other sequence somewhere, and the rests are
      permutations of each other. */
  lemma HeadOfPermutation<T>(a: seq<T>, b: seq<T>) returns (i: nat)
    requires multiset(a) == multiset(b) && a != []
    ensures i < |b| && b[i] == a[0] && multiset(a[1..]) == multiset(Without(b, i))
  {
    assert a[0] in multiset(b);
    i :| 0 <= i < |b| && b[i] == a[0];
    SplitOff(a, 0);
    SplitOff(b, i);
    assert Without(a, 0) == a[1..];
    CancelOne(multiset(a[1..]), multiset(Without(b, i)), a[0]);
  }

  lemma SplitOff<T>(s: seq<T>, i: nat)
    requires i < |s|
    ensures multiset(s) == multiset(Without(s, i)) + multiset{s[i]}
  {
    assert s == s[..i] + [s[i]] + s[i + 1..];
  }

  lemma CancelOne<T>(a: multiset<T>, b: multiset<T>, x: T)
    requires a + multiset{x} == b + multiset{x}
    ensures a == b
  {
    assert a == (a + multiset{x}) - multiset{x};
    assert b == (b + multiset{x}) - multiset{x};
  }

  /** A pair's summary of the pairs of one engram with each of `ys`. */
  function EachSummary(ev: Event, x: CoActivated, ys: seq<CoActivated>, k: PairKey): Summary {
    SummaryOf(WithEach(ev, x, ys), k)
  }

  function PairsSummary(ev: Event, es: seq<CoActivated>, k: PairKey): Summary {
    SummaryOf(PairsOf(ev, es), k)
  }

  lemma {:induction false} EachSummaryStep(ev: Event, x: CoActivated, ys: seq<CoActivated>, k: PairKey)
    requires ys != []
    ensures EachSummary(ev, x, ys, k) == Combine(One(Contribute(ev, x, ys[0]), k), EachSummary(ev, x, ys[1..], k))
  {
  }

  lemma {:induction false} PairsSummaryStep(ev: Event, es: seq<CoActivated>, k: PairKey)
    requires es != []
    ensures PairsSummary(ev, es, k) == Combine(EachSummary(ev, es[0], es[1..], k), PairsSummary(ev, es[1..], k))
  {
    SummaryConcat(WithEach(ev, es[0], es[1..]), PairsOf(ev, es[1..]), k);
  }

  lemma {:induction false} EachWithout(ev: Event, x: CoActivated, ys: seq<CoActivated>, i: nat, k: PairKey)
    requires i < |ys|
    ensures EachSummary(ev, x, ys, k) ==
            Combine(One(Contribute(ev, x, ys[i]), k), EachSummary(ev, x, Without(ys, i), k))
  {
    hide Contribute, Combine, One, EachSummary;
    EachSummaryStep(ev, x, ys, k);
    if i == 0 {
      assert Without(ys, 0) == ys[1..];
    } else {
      WithoutTail(ys, i);
      EachWithout(ev, x, ys[1..], i - 1, k);
      EachSummaryStep(ev, x, Without(ys, i), k);
      CombineLaws(One(Contribute(ev, x, ys[0]), k), One(Contribute(ev, x, ys[i]), k),
                  EachSummary(ev, x, Without(ys[1..], i - 1), k));
    }
  }

  lemma ContributeSymmetric(ev: Event, x: CoActivated, y: CoActivated)
    ensures Contribute(ev, x, y) == Contribute(ev, y, x)
  {
    CanonicalPairSymmetric(x.id, y.id);
  }

  /** Any engram may be paired first. */
  lemma {:induction false} PairsWithout(ev: Event, es: seq<CoActivated>, i: nat, k: PairKey)
    requires i < |es|
    ensures PairsSummary(ev, es, k) ==
            Combine(EachSummary(ev, es[i], Without(es, i), k), PairsSummary(ev, Without(es, i), k))
  {
    hide Contribute, Combine, One, EachSummary, PairsSummary;
    PairsSummaryStep(ev, es, k);
    if i == 0 {
      assert Without(es, 0) == es[1..];
    } else {
      var head, x, rest := es[0], es[i], Without(es[1..], i - 1);
      WithoutTail(es, i);
      PairsWithout(ev, es[1..], i - 1, k);
      EachWithout(ev, head, es[1..], i - 1, k);
      EachSummaryStep(ev, x, Without(es, i), k);
      PairsSummaryStep(ev, Without(es, i), k);
      ContributeSymmetric(ev, head, x);
      var c := One(Contribute(ev, x, head), k);
      Exchange(c, EachSummary(ev, head, rest, k), EachSummary(ev, x, rest, k), PairsSummary(ev, rest, k));
    }
  }

  lemma Exchange(c: Summary, h: Summary, x: Summary, p: Summary)
    ensures Combine(Combine(c, h), Combine(x, p)) == Combine(Combine(c, x), Combine(h, p))
  {
  }

  lemma {:induction false} EachPermutation(ev: Event, x: CoActivated, a: seq<CoActivated>, b: seq<CoActivated>,
                                           k: PairKey)
    requires multiset(a) == multiset(b)
    ensures EachSummary(ev, x, a, k) == EachSummary(ev, x, b, k)
    decreases |a|
  {
    hide Contribute, Combine, One, EachSummary;
    if a == [] {
    } else {
      var i := HeadOfPermutation(a, b);
      EachSummaryStep(ev, x, a, k);
      EachWithout(ev, x, b, i, k);
      EachPermutation(ev, x, a[1..], Without(b, i), k);
    }
  }

  lemma {:induction false} PairsPermutation(ev: Event, a: seq<CoActivated>, b: seq<CoActivated>, k: PairKey)
    requires multiset(a) == multiset(b)
    ensures PairsSummary(ev, a, k) == PairsSummary(ev, b, k)
    decreases |a|
  {
    hide Combine, EachSummary, PairsSummary;
    if a == [] {
    } else {
      var i := HeadOfPermutation(a, b);
      PairsSummaryStep(ev, a, k);
      PairsWithout(ev, b, i, k);
      EachPermutation(ev, a[0], a[1..], Without(b, i), k);
      PairsPermutation(ev, a[1..], Without(b, i), k);
    }
  }

  /** An event up to the order of its engrams. */
  datatype Shape = Shape(ws: Workspace, at: int, engrams: multiset<CoActivated>, ltp: Option<LtpConfig>)

  function ShapeOf(ev: Event): Shape {
    Shape(ev.ws, ev.at, multiset(ev.engrams), ev.ltp)
  }

  function Shapes(batch: seq<Event>): seq<Shape> {
    seq(|batch|, i requires 0 <= i < |batch| => ShapeOf(batch[i]))
  }

  function EventSummary(ev: Event, k: PairKey): Summary {
    PairsSummary(ev, ev.engrams, k)
  }

  lemma {:induction false} SameShapeSummary(x: Event, y: Event, k: PairKey)
    requires ShapeOf(x) == ShapeOf(y)
    ensures EventSummary(x, k) == EventSummary(y, k)
  {
    PairsPermutation(x, x.engrams, y.engrams, k);
    SameHeader(x, y, y.engrams);
  }

  lemma {:induction false} SameHeader(x: Event, y: Event, es: seq<CoActivated>)
    requires x.ws == y.ws && x.at == y.at && x.ltp == y.ltp
    ensures PairsOf(x, es) == PairsOf(y, es)
  {
    if es != [] {
      SameHeaderEach(x, y, es[0], es[1..]);
      SameHeader(x, y, es[1..]);
    }
  }

  lemma {:induction false} SameHeaderEach(x: Event, y: Event, e: CoActivated, es: seq<CoActivated>)
    requires x.ws == y.ws && x.at == y.at && x.ltp == y.ltp
    ensures WithEach(x, e, es) == WithEach(y, e, es)
  {
    if es != [] {
      SameHeaderEach(x, y, e, es[1..]);
    }
  }

  function BatchSummary(batch: seq<Event>, k: PairKey): Summary {
    SummaryOf(Contributions(batch), k)
  }

  lemma {:induction false} BatchSummaryConcat(a: seq<Event>, b: seq<Event>, k: PairKey)
    ensures BatchSummary(a + b, k) == Combine(BatchSummary(a, k), BatchSummary(b, k))
  {
    ContributionsConcat(a, b);
    SummaryConcat(Contributions(a), Contributions(b), k);
  }

  lemma {:induction false} BatchSummaryOne(ev: Event, k: PairKey)
    ensures BatchSummary([ev], k) == EventSummary(ev, k)
  {
    assert [ev][1..] == [];
    assert Contributions([ev]) == PairsOf(ev, ev.engrams);
  }

  lemma {:induction false} BatchWithout(batch: seq<Event>, i: nat, k: PairKey)
    requires i < |batch|
    ensures BatchSummary(batch, k) == Combine(EventSummary(batch[i], k), BatchSummary(Without(batch, i), k))
  {
    hide Combine, BatchSummary, EventSummary;
    var a, ev, b := batch[..i], batch[i], batch[i + 1..];
    assert batch == a + ([ev] + b);
    BatchSummaryConcat(a, [ev] + b, k);
    BatchSummaryConcat([ev], b, k);
    BatchSummaryConcat(a, b, k);
    BatchSummaryOne(ev, k);
    CombineLaws(BatchSummary(a, k), EventSummary(ev, k), BatchSummary(b, k));
  }

  lemma {:induction false} ShapesWithout(batch: seq<Event>, i: nat)
    requires i < |batch|
    ensures Shapes(Without(batch, i)) == Without(Shapes(batch), i)
  {
  }

  /** Reordering the events, and the engrams within each, changes no pair's count,
      signal or latest time. */
  lemma {:induction false} BatchPermutation(a: seq<Event>, b: seq<Event>, k: PairKey)
    requires multiset(Shapes(a)) == multiset(Shapes(b))
    ensures BatchSummary(a, k) == BatchSummary(b, k)
    decreases |a|
  {
    hide Combine, BatchSummary, EventSummary, ShapeOf;
    if a == [] {
      assert Shapes(a) == [];
      assert b == [];
    } else {
      var i := HeadOfPermutation(Shapes(a), Shapes(b));
      ShapesWithout(b, i);
      ShapesWithout(a, 0);
      assert Without(a, 0) == a[1..] && Without(Shapes(a), 0) == Shapes(a)[1..];
      SameShapeSummary(a[0], b[i], k);
      BatchWithout(a, 0, k);
      BatchWithout(b, i, k);
      BatchPermutation(a[1..], Without(b, i), k);
    }
  }

  // ---------- The vault and the LTP configuration ----------

  ghost predicate Touches(ev: Event, k: PairKey) {
    EventSummary(ev, k).count > 0
  }

  /** The pair is confined to one vault and sees at most one LTP configuration. */
  ghost predicate Owned(batch: seq<Event>, k: PairKey, ws: Workspace, ltp: Option<LtpConfig>) {
    && (forall i | 0 <= i < |batch| && Touches(batch[i], k) ::
          batch[i].ws == ws && (batch[i].ltp == ltp || batch[i].ltp.None?))
    && (ltp.Some? ==> exists i :: 0 <= i < |batch| && Touches(batch[i], k) && batch[i].ltp == ltp)
  }

  lemma {:induction false} OwnedPermutation(a: seq<Event>, b: seq<Event>, k: PairKey, ws: Workspace,
                                            ltp: Option<LtpConfig>)
    requires multiset(Shapes(a)) == multiset(Shapes(b)) && Owned(a, k, ws, ltp)
    ensures Owned(b, k, ws, ltp)
  {
    hide EventSummary;
    forall j | 0 <= j < |b|
      ensures exists i :: 0 <= i < |a| && ShapeOf(a[i]) == ShapeOf(b[j])
    {
      var i := SameShapeIn(b, a, j);
    }
    forall j | 0 <= j < |b| && Touches(b[j], k)
      ensures b[j].ws == ws && (b[j].ltp == ltp || b[j].ltp.None?)
    {
      var i :| 0 <= i < |a| && ShapeOf(a[i]) == ShapeOf(b[j]);
      SameShapeSummary(a[i], b[j], k);
    }
    if ltp.Some? {
      var i :| 0 <= i < |a| && Touches(a[i], k) && a[i].ltp == ltp;
      var j := SameShapeIn(a, b, i);
      SameShapeSummary(a[i], b[j], k);
    }
  }

  lemma SameShapeIn(a: seq<Event>, b: seq<Event>, i: nat) returns (j: nat)
    requires multiset(Shapes(a)) == multiset(Shapes(b)) && i < |a|
    ensures j < |b| && ShapeOf(b[j]) == ShapeOf(a[i])
  {
    assert Shapes(a)[i] in multiset(Shapes(b));
    j :| 0 <= j < |Shapes(b)| && Shapes(b)[j] == Shapes(a)[i];
  }

  ghost predicate OwnedRecord(pairs: Pairs, k: PairKey, ws: Workspace, ltp: Option<LtpConfig>) {
    k in pairs ==> pairs[k].ws == ws && (pairs[k].ltp == ltp || pairs[k].ltp.None?)
  }

  ghost predicate From(cs: seq<Contribution>, ev: Event) {
    forall i | 0 <= i < |cs| :: cs[i].ws == ev.ws && cs[i].at == ev.at && cs[i].ltp == ev.ltp
  }

  lemma {:induction false} EachFrom(ev: Event, x: CoActivated, ys: seq<CoActivated>)
    ensures From(WithEach(ev, x, ys), ev)
  {
    if ys != [] {
      EachFrom(ev, x, ys[1..]);
    }
  }

  lemma {:induction false} PairsFrom(ev: Event, es: seq<CoActivated>)
    ensures From(PairsOf(ev, es), ev)
  {
    if es != [] {
      EachFrom(ev, es[0], es[1..]);
      PairsFrom(ev, es[1..]);
    }
  }

  /** One event's contributions keep or fill in the owner of a pair. */
  lemma {:induction false} AggregateFrom(pairs: Pairs, cs: seq<Contribution>, ev: Event, k: PairKey, ws: Workspace,
                                         ltp: Option<LtpConfig>)
    requires From(cs, ev) && OwnedRecord(pairs, k, ws, ltp)
    requires SummaryOf(cs, k).count > 0 ==> ev.ws == ws && (ev.ltp == ltp || ev.ltp.None?)
    ensures OwnedRecord(Aggregate(pairs, cs), k, ws, ltp)
    ensures k in pairs ==> k in Aggregate(pairs, cs)
    ensures k in pairs && pairs[k].ltp == ltp ==> Aggregate(pairs, cs)[k].ltp == ltp
    ensures SummaryOf(cs, k).count > 0 ==> k in Aggregate(pairs, cs)
    ensures SummaryOf(cs, k).count > 0 && ev.ltp == ltp ==> Aggregate(pairs, cs)[k].ltp == ltp
    decreases |cs|
  {
    if cs != [] {
      assert From(cs[1..], ev) by {
        assert forall i | 0 <= i < |cs| - 1 :: cs[1..][i] == cs[i + 1];
      }
      AggregateFrom(Add(pairs, cs[0]), cs[1..], ev, k, ws, ltp);
    }
  }

  lemma {:induction false} AggregateOwner(pairs: Pairs, batch: seq<Event>, k: PairKey, ws: Workspace,
                                          ltp: Option<LtpConfig>)
    requires OwnedRecord(pairs, k, ws, ltp)
    requires forall i | 0 <= i < |batch| && Touches(batch[i], k) ::
               batch[i].ws == ws && (batch[i].ltp == ltp || batch[i].ltp.None?)
    ensures OwnedRecord(Aggregate(pairs, Contributions(batch)), k, ws, ltp)
    ensures k in pairs ==> k in Aggregate(pairs, Contributions(batch))
    ensures k in pairs && pairs[k].ltp == ltp ==> Aggregate(pairs, Contributions(batch))[k].ltp == ltp
    ensures forall i | 0 <= i < |batch| && Touches(batch[i], k) && batch[i].ltp == ltp ::
              k in Aggregate(pairs, Contributions(batch)) && Aggregate(pairs, Contributions(batch))[k].ltp == ltp
    decreases |batch|
  {
    hide Add, SummaryOf, PairsOf, From;
    if batch != [] {
      var ev, cs := batch[0], PairsOf(batch[0], batch[0].engrams);
      PairsFrom(ev, ev.engrams);
      AggregateConcat(pairs, cs, Contributions(batch[1..]));
      AggregateFrom(pairs, cs, ev, k, ws, ltp);
      assert forall i | 0 <= i < |batch| - 1 :: batch[1..][i] == batch[i + 1];
      AggregateOwner(Aggregate(pairs, cs), batch[1..], k, ws, ltp);
    }
  }

  /** Aggregation of an owned pair is independent of event order and of engram order. */
  lemma {:induction false} AggregationIsOrderFree(a: seq<Event>, b: seq<Event>, k: PairKey, ws: Workspace,
                                                  ltp: Option<LtpConfig>)
    requires multiset(Shapes(a)) == multiset(Shapes(b)) && Owned(a, k, ws, ltp)
    ensures var pa, pb := Aggregate(map[], Contributions(a)), Aggregate(map[], Contributions(b));
            (k in pa <==> k in pb) && (k in pa ==> pa[k] == pb[k])
  {
    hide Shapes, Aggregate, Contributions, Touches;
    BatchPermutation(a, b, k);
    OwnedPermutation(a, b, k, ws, ltp);
    OwnedAggregate(a, k, ws, ltp);
    OwnedAggregate(b, k, ws, ltp);
  }

  /** The record of an owned pair, in terms of the batch alone. */
  lemma {:induction false} OwnedAggregate(batch: seq<Event>, k: PairKey, ws: Workspace, ltp: Option<LtpConfig>)
    requires Owned(batch, k, ws, ltp)
    ensures var p, s := Aggregate(map[], Contributions(batch)), BatchSummary(batch, k);
            && (k in p <==> s.count > 0)
            && (k in p ==> s.at.Some? && p[k] == Stats(s.count, s.signal, ws, ltp, s.at.value))
  {
    BatchRecorded(batch, k);
    BatchOwner(batch, k, ws, ltp);
    hide Aggregate, Contributions, Owned, BatchSummary;
  }

  lemma {:induction false} BatchRecorded(batch: seq<Event>, k: PairKey)
    ensures var p := Aggregate(map[], Contributions(batch));
            Recorded(p, k) == BatchSummary(batch, k) && (k in p <==> BatchSummary(batch, k).count > 0)
  {
    hide Aggregate, Contributions;
    var none: Pairs := map[];
    assert Recorded(none, k) == NOTHING;
    AggregateSummarises(none, Contributions(batch), k);
    CombineLaws(BatchSummary(batch, k), NOTHING, NOTHING);
  }

  lemma {:induction false} BatchOwner(batch: seq<Event>, k: PairKey, ws: Workspace, ltp: Option<LtpConfig>)
    requires Owned(batch, k, ws, ltp)
    ensures var p := Aggregate(map[], Contributions(batch));
            k in p ==> p[k].ws == ws && p[k].ltp == ltp
  {
    hide Aggregate, Contributions, Touches;
    AggregateOwner(map[], batch, k, ws, ltp);
    if ltp.Some? {
      var i :| 0 <= i < |batch| && Touches(batch[i], k) && batch[i].ltp == ltp;
    }
  }
}
