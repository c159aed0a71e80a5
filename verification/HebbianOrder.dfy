/** When the order of a batch shows in a pair's record. */
module HebbianOrder {

  import opened Common
  import opened LtpCounters
  import opened Hebbian

  /** The events of a pair agree on its vault and, where they set one, on its LTP
      configuration. */
  ghost predicate Steady(batch: seq<Event>, k: PairKey) {
    forall i, j | 0 <= i < |batch| && 0 <= j < |batch| && Touches(batch[i], k) && Touches(batch[j], k) ::
      batch[i].ws == batch[j].ws && (batch[i].ltp.Some? && batch[j].ltp.Some? ==> batch[i].ltp == batch[j].ltp)
  }

  ghost predicate Reordering(a: seq<Event>, b: seq<Event>) {
    multiset(Shapes(a)) == multiset(Shapes(b))
  }

  ghost predicate SameRecord(a: seq<Event>, b: seq<Event>, k: PairKey) {
    var pa, pb := Aggregate(map[], Contributions(a)), Aggregate(map[], Contributions(b));
    (k in pa <==> k in pb) && (k in pa ==> pa[k] == pb[k])
  }

  lemma SteadyIsOwned(batch: seq<Event>, k: PairKey) returns (ws: Workspace, ltp: Option<LtpConfig>)
    requires Steady(batch, k)
    ensures Owned(batch, k, ws, ltp)
  {
    hide Touches;
    ws, ltp := seq(WORKSPACE_LENGTH, _ => 0), None;
    if i :| 0 <= i < |batch| && Touches(batch[i], k) {
      ws := batch[i].ws;
    }
    if i :| 0 <= i < |batch| && Touches(batch[i], k) && batch[i].ltp.Some? {
      ltp := batch[i].ltp;
    }
  }

  /** Later contributions neither move a pair nor replace its configuration. */
  lemma {:induction false} OwnerStays(pairs: Pairs, cs: seq<Contribution>, k: PairKey)
    requires k in pairs
    ensures var p := Aggregate(pairs, cs);
            k in p && p[k].ws == pairs[k].ws && (pairs[k].ltp.Some? ==> p[k].ltp == pairs[k].ltp)
    decreases |cs|
  {
    if cs != [] {
      OwnerStays(Add(pairs, cs[0]), cs[1..], k);
    }
  }

  function MovedFirst(batch: seq<Event>, i: nat): seq<Event>
    requires i < |batch|
  {
    [batch[i]] + Without(batch, i)
  }

  lemma MovedFirstReorders(batch: seq<Event>, i: nat)
    requires i < |batch|
    ensures Reordering(batch, MovedFirst(batch, i))
  {
    var b := MovedFirst(batch, i);
    ShapesWithout(batch, i);
    SplitOff(Shapes(batch), i);
    assert Shapes(b) == [ShapeOf(batch[i])] + Shapes(Without(batch, i));
  }

  /** The first event of a pair decides its vault, and its configuration if it has one. */
  lemma FirstDecides(batch: seq<Event>, i: nat, k: PairKey)
    requires i < |batch| && Touches(batch[i], k)
    ensures var p := Aggregate(map[], Contributions(MovedFirst(batch, i)));
            k in p && p[k].ws == batch[i].ws && (batch[i].ltp.Some? ==> p[k].ltp == batch[i].ltp)
  {
    var ev, b := batch[i], MovedFirst(batch, i);
    var cs, none: Pairs := PairsOf(ev, ev.engrams), map[];
    assert b[0] == ev && b[1..] == Without(batch, i);
    PairsFrom(ev, ev.engrams);
    AggregateFrom(none, cs, ev, k, ev.ws, ev.ltp);
    AggregateConcat(none, cs, Contributions(b[1..]));
    OwnerStays(Aggregate(none, cs), Contributions(b[1..]), k);
  }

  /** Otherwise some reordering changes the record. */
  lemma OrderMatters(a: seq<Event>, k: PairKey) returns (b: seq<Event>)
    requires !Steady(a, k)
    ensures Reordering(a, b) && !SameRecord(a, b, k)
  {
    var i, j :| 0 <= i < |a| && 0 <= j < |a| && Touches(a[i], k) && Touches(a[j], k) &&
                !(a[i].ws == a[j].ws && (a[i].ltp.Some? && a[j].ltp.Some? ==> a[i].ltp == a[j].ltp));
    hide Aggregate, Contributions, Touches, MovedFirst, Reordering;
    MovedFirstReorders(a, i);
    MovedFirstReorders(a, j);
    FirstDecides(a, i, k);
    FirstDecides(a, j, k);
    b := if SameRecord(a, MovedFirst(a, i), k) then MovedFirst(a, j) else MovedFirst(a, i);
  }

  /** A pair's record is the same for every order of the batch if and only if its events
      agree on the vault and on the LTP configuration. */
  lemma OrderFreeIff(a: seq<Event>, k: PairKey)
    ensures Steady(a, k) <==> forall b | Reordering(a, b) :: SameRecord(a, b, k)
  {
    if Steady(a, k) {
      var ws, ltp := SteadyIsOwned(a, k);
      forall b | Reordering(a, b)
        ensures SameRecord(a, b, k)
      {
        AggregationIsOrderFree(a, b, k, ws, ltp);
      }
    } else {
      var b := OrderMatters(a, k);
    }
  }

  lemma PairTouches(ev: Event, x: CoActivated, y: CoActivated)
    requires ev.engrams == [x, y]
    ensures Touches(ev, CanonicalPair(x.id, y.id))
    ensures EventSummary(ev, CanonicalPair(x.id, y.id)) == Summary(1, x.score * y.score, Some(ev.at))
  {
    var k := CanonicalPair(x.id, y.id);
    var c := Contribute(ev, x, y);
    assert [x, y][1..] == [y] && [y][1..] == [];
    assert WithEach(ev, y, []) == [] && PairsOf(ev, []) == [];
    assert WithEach(ev, x, [y]) == [c];
    assert PairsOf(ev, ev.engrams) == [c];
    assert SummaryOf([c], k) == Combine(One(c, k), SummaryOf([], k));
  }

  /** One pair, two events, two LTP configurations: the order shows. */
  lemma TwoConfigurationsMatter(x: CoActivated, y: CoActivated, ws: Workspace, at: int, first: LtpConfig,
                                second: LtpConfig)
    requires first != second
    ensures !Steady([Event(ws, at, [x, y], Some(first)), Event(ws, at, [x, y], Some(second))],
                    CanonicalPair(x.id, y.id))
  {
    var a := [Event(ws, at, [x, y], Some(first)), Event(ws, at, [x, y], Some(second))];
    PairTouches(a[0], x, y);
    PairTouches(a[1], x, y);
    assert a[0].ltp != a[1].ltp;
  }
}
