/** What weight an inferred edge gets: the discounted product along the first listed link
    of its pair, whatever order the nodes are visited in. */
module TransitiveWeights {

  import opened Common
  import opened Transitive
  import opened TransitiveRuns

  // ---------- The first candidate of a pair decides ----------

  function FirstWeight(cs: seq<Candidate>, p: Pair): Option<real> {
    if cs == [] then None
    else if cs[0].pair == p then Some(cs[0].weight)
    else FirstWeight(cs[1..], p)
  }

  lemma {:induction false} FirstWeightConcat(xs: seq<Candidate>, ys: seq<Candidate>, p: Pair)
    ensures FirstWeight(xs + ys, p) == if FirstWeight(xs, p).Some? then FirstWeight(xs, p) else FirstWeight(ys, p)
  {
    if xs == [] {
      assert xs + ys == ys;
    } else {
      assert (xs + ys)[1..] == xs[1..] + ys;
      FirstWeightConcat(xs[1..], ys, p);
    }
  }

  /** An edge a run adds carries the weight of its pair's first candidate. */
  lemma {:induction false} FirstCandidateWins(s: State, cs: seq<Candidate>, max: int, dryRun: bool, faults: Faults,
                                              p: Pair)
    requires PositiveCandidates(cs) && p in Infer(s, cs, max, dryRun, faults).graph
    ensures var e := Infer(s, cs, max, dryRun, faults).graph[p];
            && (Exists(s.graph, p) ==> e == s.graph[p])
            && (p !in s.graph ==> e.weight == e.peak && FirstWeight(cs, p) == Some(e.weight))
    decreases |cs|
  {
    if cs != [] && (Skips(s, cs[0], faults) || s.inferred < max) {
      assert cs[0] in cs;
      var s' := if Skips(s, cs[0], faults) then s else Apply(s, cs[0], dryRun, faults);
      FirstCandidateWins(s', cs[1..], max, dryRun, faults, p);
      if p !in s.graph && cs[0].pair == p && p !in s'.graph {
        StaysBlocked(s', cs[1..], max, dryRun, faults, p);
      }
    }
  }

  /** A pair the store cannot read or write stays missing. */
  lemma {:induction false} StaysBlocked(s: State, cs: seq<Candidate>, max: int, dryRun: bool, faults: Faults, p: Pair)
    requires p !in s.graph && (dryRun || p in faults.unreadable || p in faults.unwritable)
    ensures p !in Infer(s, cs, max, dryRun, faults).graph
    decreases |cs|
  {
    if cs != [] {
      if Skips(s, cs[0], faults) {
        StaysBlocked(s, cs[1..], max, dryRun, faults, p);
      } else if s.inferred < max {
        StaysBlocked(Apply(s, cs[0], dryRun, faults), cs[1..], max, dryRun, faults, p);
      }
    }
  }

  // ---------- Where the first candidate comes from ----------

  /** Leg `j` of the middle node leads to the pair's target. */
  ghost predicate Leg(bcs: seq<Assoc>, c: Id, j: int) {
    0 <= j < |bcs| && Strong(bcs[j]) && bcs[j].target == c
  }

  ghost predicate FirstLeg(bcs: seq<Assoc>, c: Id, j: int) {
    Leg(bcs, c, j) && forall k | Leg(bcs, c, k) :: j <= k
  }

  lemma {:induction false} ThroughFirst(a: Id, ab: Assoc, bcs: seq<Assoc>, c: Id, j: int)
    requires FirstLeg(bcs, c, j)
    ensures FirstWeight(Through(a, ab, bcs), (a, c)) == Some(InferredWeight(ab.weight, bcs[j].weight))
  {
    hide Strong, InferredWeight;
    if j > 0 {
      var tail := bcs[1..];
      assert !Leg(bcs, c, 0) && tail[j - 1] == bcs[j];
      assert forall k | Leg(tail, c, k) :: Leg(bcs, c, k + 1);
      assert FirstLeg(tail, c, j - 1);
      ThroughFirst(a, ab, tail, c, j - 1);
    }
  }

  lemma {:induction false} ThroughNone(a: Id, ab: Assoc, bcs: seq<Assoc>, p: Pair)
    requires p.0 != a || forall k :: !Leg(bcs, p.1, k)
    ensures FirstWeight(Through(a, ab, bcs), p) == None
  {
    hide Strong;
    if bcs != [] {
      var tail := bcs[1..];
      assert forall k | Leg(tail, p.1, k) :: Leg(bcs, p.1, k + 1);
      assert p.0 == a ==> !Leg(bcs, p.1, 0);
      ThroughNone(a, ab, tail, p);
    }
  }

  /** Edges `i` of `abs` and `j` of its target lead to `c`. */
  ghost predicate Way(abs: seq<Assoc>, snap: Snapshot, c: Id, i: int, j: int) {
    0 <= i < |abs| && Strong(abs[i]) && abs[i].target in snap && Leg(snap[abs[i].target], c, j)
  }

  ghost predicate FirstWay(abs: seq<Assoc>, snap: Snapshot, c: Id, i: int, j: int) {
    && Way(abs, snap, c, i, j)
    && forall k, l | Way(abs, snap, c, k, l) :: i < k || (i == k && j <= l)
  }

  lemma {:induction false} FromFirst(a: Id, abs: seq<Assoc>, snap: Snapshot, c: Id, i: int, j: int)
    requires FirstWay(abs, snap, c, i, j)
    ensures FirstWeight(From(a, abs, snap), (a, c)) ==
            Some(InferredWeight(abs[i].weight, snap[abs[i].target][j].weight))
  {
    hide Strong, Through, FirstWeight, Leg, InferredWeight;
    var tail := abs[1..];
    var first := if Strong(abs[0]) && abs[0].target in snap then Through(a, abs[0], snap[abs[0].target]) else [];
    assert From(a, abs, snap) == first + From(a, tail, snap);
    FirstWeightConcat(first, From(a, tail, snap), (a, c));
    if i == 0 {
      var bcs := snap[abs[0].target];
      assert forall l | Leg(bcs, c, l) :: Way(abs, snap, c, 0, l);
      assert FirstLeg(bcs, c, j);
      ThroughFirst(a, abs[0], bcs, c, j);
    } else {
      assert forall l :: !Way(abs, snap, c, 0, l);
      if Strong(abs[0]) && abs[0].target in snap {
        assert forall l | Leg(snap[abs[0].target], c, l) :: Way(abs, snap, c, 0, l);
        ThroughNone(a, abs[0], snap[abs[0].target], (a, c));
      } else {
        NoCandidates((a, c));
      }
      assert forall k, l | Way(tail, snap, c, k, l) :: Way(abs, snap, c, k + 1, l);
      assert tail[i - 1] == abs[i] && Way(tail, snap, c, i - 1, j);
      assert FirstWay(tail, snap, c, i - 1, j);
      FromFirst(a, tail, snap, c, i - 1, j);
    }
  }

  lemma NoCandidates(p: Pair)
    ensures FirstWeight([], p) == None
  {
  }

  lemma {:induction false} FromElsewhere(a: Id, abs: seq<Assoc>, snap: Snapshot, p: Pair)
    requires a != p.0
    ensures FirstWeight(From(a, abs, snap), p) == None
  {
    hide Strong, Through;
    if abs != [] {
      FromElsewhere(a, abs[1..], snap, p);
      if Strong(abs[0]) && abs[0].target in snap {
        ThroughNone(a, abs[0], snap[abs[0].target], p);
        FirstWeightConcat(Through(a, abs[0], snap[abs[0].target]), From(a, abs[1..], snap), p);
      }
    }
  }

  lemma {:induction false} CandidatesFirst(order: seq<Id>, snap: Snapshot, p: Pair)
    ensures FirstWeight(Candidates(order, snap), p) ==
            if p.0 in order && p.0 in snap then FirstWeight(From(p.0, snap[p.0], snap), p) else None
  {
    hide From;
    if order != [] {
      CandidatesFirst(order[1..], snap, p);
      if order[0] in snap {
        FirstWeightConcat(From(order[0], snap[order[0]], snap), Candidates(order[1..], snap), p);
        if order[0] != p.0 {
          FromElsewhere(order[0], snap[order[0]], snap, p);
        }
      }
    }
  }

  // ---------- The weight of every new edge ----------

  /** Of the pair's links, the one the store lists first. */
  ghost predicate FirstLink(snap: Snapshot, p: Pair, i: int, j: int) {
    && Linked(snap, p.0, i, j) && LinkTarget(snap, p.0, i, j) == p.1
    && forall k, l | Linked(snap, p.0, k, l) && LinkTarget(snap, p.0, k, l) == p.1 :: i < k || (i == k && j <= l)
  }

  /** Whatever the order, the cap and the store errors: an edge a run adds weighs 0.8 times
      the product of the two edges of the pair's first link, and that is its peak. */
  lemma NewEdgeWeight(g: Graph, run: Run, p: Pair, i: int, j: int)
    requires ValidGraph(g) && SnapshotOf(g, run.snap) && FirstLink(run.snap, p, i, j)
    requires p !in g && p in After(g, run)
    ensures var ab := run.snap[p.0][i];
            var w := ab.weight * run.snap[ab.target][j].weight * 0.8;
            After(g, run)[p] == Edge(w, w)
  {
    hide Strong, From, Infer, FirstWeight;
    var cs := Candidates(run.order, run.snap);
    SnapshotCandidatesPositive(g, run.order, run.snap);
    FirstCandidateWins(State(g, 0), cs, run.max, run.dryRun, run.faults, p);
    CandidatesFirst(run.order, run.snap, p);
    var abs := run.snap[p.0];
    assert forall k, l | Way(abs, run.snap, p.1, k, l) ::
        Linked(run.snap, p.0, k, l) && LinkTarget(run.snap, p.0, k, l) == p.1;
    assert FirstWay(abs, run.snap, p.1, i, j);
    FromFirst(p.0, abs, run.snap, p.1, i, j);
  }

  /** Every edge a run adds has such a link, of two edges that weigh or have weighed 0.7. */
  lemma NewEdgeHasLink(g: Graph, run: Run, p: Pair) returns (i: int, j: int)
    requires ValidGraph(g) && SnapshotOf(g, run.snap) && p !in g && p in After(g, run)
    ensures FirstLink(run.snap, p, i, j)
    ensures var ab := run.snap[p.0][i];
            var bc := run.snap[ab.target][j];
            && bc.target == p.1 && (p.0, ab.target) in g && (ab.target, p.1) in g
            && (ab.weight >= 0.7 || ab.peak >= 0.7) && (bc.weight >= 0.7 || bc.peak >= 0.7)
            && After(g, run)[p] == Edge(ab.weight * bc.weight * 0.8, ab.weight * bc.weight * 0.8)
  {
    var cs := Candidates(run.order, run.snap);
    SnapshotCandidatesPositive(g, run.order, run.snap);
    FirstCandidateWins(State(g, 0), cs, run.max, run.dryRun, run.faults, p);
    var k := HasCandidate(cs, p);
    var a, x, y := CandidateSource(run.order, run.snap, cs[k]);
    i, j := LeastLink(run.snap, p, x, y);
    NewEdgeWeight(g, run, p, i, j);
  }

  lemma {:induction false} HasCandidate(cs: seq<Candidate>, p: Pair) returns (k: nat)
    requires FirstWeight(cs, p).Some?
    ensures k < |cs| && cs[k].pair == p
  {
    k := 0;
    if cs[0].pair != p {
      var m := HasCandidate(cs[1..], p);
      k := m + 1;
    }
  }

  lemma {:induction false} LeastLink(snap: Snapshot, p: Pair, x: int, y: int) returns (i: int, j: int)
    requires Linked(snap, p.0, x, y) && LinkTarget(snap, p.0, x, y) == p.1
    ensures FirstLink(snap, p, i, j)
    decreases x, y
  {
    hide Strong;
    i, j := x, y;
    if k, l :| Linked(snap, p.0, k, l) && LinkTarget(snap, p.0, k, l) == p.1 && !(x < k || (x == k && y <= l)) {
      i, j := LeastLink(snap, p, k, l);
    }
  }

  /** So two runs over one snapshot that both add a pair give it the same edge. */
  lemma OrderDoesNotWeigh(g: Graph, r1: Run, r2: Run, p: Pair)
    requires ValidGraph(g) && SnapshotOf(g, r1.snap) && r1.snap == r2.snap
    requires p !in g && p in After(g, r1) && p in After(g, r2)
    ensures After(g, r1)[p] == After(g, r2)[p]
  {
    hide After, FirstLink;
    var i, j := NewEdgeHasLink(g, r1, p);
    NewEdgeWeight(g, r1, p, i, j);
    NewEdgeWeight(g, r2, p, i, j);
  }

  /** With a single link that product is the weight. */
  lemma SingleLinkWeight(g: Graph, run: Run, p: Pair, i: int, j: int)
    requires ValidGraph(g) && SnapshotOf(g, run.snap) && p !in g && p in After(g, run)
    requires Linked(run.snap, p.0, i, j) && LinkTarget(run.snap, p.0, i, j) == p.1
    requires forall k, l | Linked(run.snap, p.0, k, l) && LinkTarget(run.snap, p.0, k, l) == p.1 :: k == i && l == j
    ensures After(g, run)[p].weight == run.snap[p.0][i].weight * run.snap[run.snap[p.0][i].target][j].weight * 0.8
  {
    hide After;
    NewEdgeWeight(g, run, p, i, j);
  }

  // ---------- What counts as strong and as missing ----------

  /** Strong means weighing 0.7 now or having weighed it, for any record, one whose peak was
      never kept up included. */
  lemma StrongIff(x: Assoc)
    ensures Strong(x) <==> x.weight >= 0.7 || x.peak >= 0.7
  {
  }

  /** Any two strong edges in a row are linked by a run that meets neither errors nor its
      cap. */
  lemma StrongInARowIsLinked(g: Graph, order: seq<Id>, snap: Snapshot, max: int, eligible: set<Pair>, a: Id, i: int,
                             j: int)
    requires ValidGraph(g) && SnapshotOf(g, snap) && Elements(order) == snap.Keys
    requires (forall p :: p in eligible <==> Eligible(g, snap, p)) && |eligible| < max
    requires a in snap && 0 <= i < |snap[a]| && snap[a][i].target in snap && 0 <= j < |snap[snap[a][i].target]|
    requires snap[a][i].weight >= 0.7 || snap[a][i].peak >= 0.7
    requires var bc := snap[snap[a][i].target][j]; bc.weight >= 0.7 || bc.peak >= 0.7
    ensures (a, snap[snap[a][i].target][j].target) in After(g, Run(order, snap, max, false, NO_FAULTS))
  {
    var p := (a, snap[snap[a][i].target][j].target);
    assert Linked(snap, a, i, j) && LinkTarget(snap, a, i, j) == p.1;
    RunCreatesEligible(g, order, snap, max, eligible);
    OnlyAdds(State(g, 0), Candidates(order, snap), max);
    if p !in g {
      assert Eligible(g, snap, p);
    }
  }

  /** A stored pair counts as linked only with a positive weight: a candidate overwrites one
      that has none, and never one that has. */
  lemma OnlyPositiveEdgesExist(s: State, c: Candidate, max: int)
    requires s.inferred < max
    ensures c.pair in s.graph && s.graph[c.pair].weight > 0.0 ==> Infer(s, [c], max, false, NO_FAULTS) == s
    ensures c.pair !in s.graph || s.graph[c.pair].weight <= 0.0 ==>
              Infer(s, [c], max, false, NO_FAULTS) ==
              State(s.graph[c.pair := Edge(c.weight, if c.weight > 0.0 then c.weight else 0.0)], s.inferred + 1)
  {
    assert [c][1..] == [];
  }
}
