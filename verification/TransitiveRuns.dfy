/** What one run of transitive inference creates, and what any number of runs keeps. */
module TransitiveRuns {

  import opened Common
  import opened Transitive

  // ---------- How many edges one run creates ----------

  ghost function NewPairs(g: Graph, cs: seq<Candidate>): set<Pair> {
    set c | c in cs && !Exists(g, c.pair) :: c.pair
  }

  ghost predicate PositiveCandidates(cs: seq<Candidate>) {
    forall c | c in cs :: c.weight > 0.0
  }

  const NO_FAULTS := Faults({}, {})

  lemma NewPairsStep(g: Graph, cs: seq<Candidate>)
    requires cs != [] && cs[0].weight > 0.0
    ensures Exists(g, cs[0].pair) ==> NewPairs(g, cs) == NewPairs(g, cs[1..])
    ensures !Exists(g, cs[0].pair) ==>
              var g' := g[cs[0].pair := Edge(cs[0].weight, Max0(cs[0].weight))];
              cs[0].pair !in NewPairs(g', cs[1..]) && NewPairs(g, cs) == NewPairs(g', cs[1..]) + {cs[0].pair}
  {
  }

  /** With no store errors a run creates exactly as many edges as there are distinct
      new pairs, up to the cap; below the cap every candidate pair ends up linked. */
  lemma {:induction false} InferCounts(s: State, cs: seq<Candidate>, max: int)
    requires PositiveCandidates(cs) && s.inferred <= Max(0, max)
    ensures var r := Infer(s, cs, max, false, NO_FAULTS);
            && r.inferred == Min(Max(0, max), s.inferred + |NewPairs(s.graph, cs)|)
            && (forall p | Exists(s.graph, p) :: Exists(r.graph, p))
            && (r.inferred < max ==> forall c | c in cs :: Exists(r.graph, c.pair))
    decreases |cs|
  {
    if cs != [] {
      assert cs[0] in cs && cs == [cs[0]] + cs[1..];
      NewPairsStep(s.graph, cs);
      if Exists(s.graph, cs[0].pair) {
        InferCounts(s, cs[1..], max);
      } else if s.inferred < max {
        var s' := Apply(s, cs[0], false, NO_FAULTS);
        assert forall p | Exists(s.graph, p) :: Exists(s'.graph, p);
        InferCounts(s', cs[1..], max);
      } else {
        assert |NewPairs(s.graph, cs)| >= 0;
      }
    }
  }

  // ---------- Which pairs are eligible, whatever the iteration order ----------

  /** A strong edge from `a` and a strong edge from its target, both listed. */
  ghost predicate Linked(snap: Snapshot, a: Id, i: int, j: int) {
    && a in snap && 0 <= i < |snap[a]| && Strong(snap[a][i])
    && snap[a][i].target in snap
    && 0 <= j < |snap[snap[a][i].target]| && Strong(snap[snap[a][i].target][j])
  }

  ghost function LinkTarget(snap: Snapshot, a: Id, i: int, j: int): Id
    requires Linked(snap, a, i, j)
  {
    snap[snap[a][i].target][j].target
  }

  ghost predicate Eligible(g: Graph, snap: Snapshot, p: Pair) {
    !Exists(g, p) && exists i, j :: Linked(snap, p.0, i, j) && LinkTarget(snap, p.0, i, j) == p.1
  }

  lemma {:induction false} ThroughIff(a: Id, ab: Assoc, bcs: seq<Assoc>, c: Candidate)
    ensures c in Through(a, ab, bcs) <==> exists j :: 0 <= j < |bcs| && Strong(bcs[j]) && c == Inferred(a, ab, bcs[j])
  {
    hide Inferred, Strong;
    if bcs != [] {
      ThroughIff(a, ab, bcs[1..], c);
      if j :| 0 <= j < |bcs| && Strong(bcs[j]) && c == Inferred(a, ab, bcs[j]) {
        assert j == 0 || bcs[1..][j - 1] == bcs[j];
      }
      if j :| 0 <= j < |bcs[1..]| && Strong(bcs[1..][j]) && c == Inferred(a, ab, bcs[1..][j]) {
        assert bcs[j + 1] == bcs[1..][j];
      }
    }
  }

  lemma {:induction false} FromIff(a: Id, abs: seq<Assoc>, snap: Snapshot, c: Candidate)
    ensures c in From(a, abs, snap) <==>
            exists i :: 0 <= i < |abs| && Strong(abs[i]) && abs[i].target in snap
              && c in Through(a, abs[i], snap[abs[i].target])
  {
    hide Through, Strong;
    if abs != [] {
      var tail := abs[1..];
      FromIff(a, tail, snap, c);
      if i :| 0 <= i < |abs| && Strong(abs[i]) && abs[i].target in snap
              && c in Through(a, abs[i], snap[abs[i].target]) {
        assert i == 0 || tail[i - 1] == abs[i];
      }
      if i :| 0 <= i < |tail| && Strong(tail[i]) && tail[i].target in snap
              && c in Through(a, tail[i], snap[tail[i].target]) {
        assert abs[i + 1] == tail[i];
      }
    }
  }

  lemma {:induction false} CandidatesIff(order: seq<Id>, snap: Snapshot, c: Candidate)
    ensures c in Candidates(order, snap) <==> exists a :: a in order && a in snap && c in From(a, snap[a], snap)
  {
    hide From;
    if order != [] {
      CandidatesIff(order[1..], snap, c);
      assert order == [order[0]] + order[1..];
    }
  }

  lemma CandidateSource(order: seq<Id>, snap: Snapshot, c: Candidate) returns (a: Id, i: int, j: int)
    requires c in Candidates(order, snap)
    ensures a in order && Linked(snap, a, i, j)
    ensures c == Inferred(a, snap[a][i], snap[snap[a][i].target][j])
  {
    hide Inferred, From, Through;
    CandidatesIff(order, snap, c);
    a :| a in order && a in snap && c in From(a, snap[a], snap);
    FromIff(a, snap[a], snap, c);
    i :| 0 <= i < |snap[a]| && Strong(snap[a][i]) && snap[a][i].target in snap
         && c in Through(a, snap[a][i], snap[snap[a][i].target]);
    ThroughIff(a, snap[a][i], snap[snap[a][i].target], c);
    j :| 0 <= j < |snap[snap[a][i].target]| && Strong(snap[snap[a][i].target][j])
         && c == Inferred(a, snap[a][i], snap[snap[a][i].target][j]);
  }

  lemma LinkIsCandidate(order: seq<Id>, snap: Snapshot, a: Id, i: int, j: int)
    requires a in order && Linked(snap, a, i, j)
    ensures Inferred(a, snap[a][i], snap[snap[a][i].target][j]) in Candidates(order, snap)
  {
    hide Inferred, From, Through;
    var c := Inferred(a, snap[a][i], snap[snap[a][i].target][j]);
    ThroughIff(a, snap[a][i], snap[snap[a][i].target], c);
    FromIff(a, snap[a], snap, c);
    CandidatesIff(order, snap, c);
  }

  lemma NewPairsAreEligible(g: Graph, order: seq<Id>, snap: Snapshot, p: Pair)
    requires Elements(order) == snap.Keys
    ensures p in NewPairs(g, Candidates(order, snap)) <==> Eligible(g, snap, p)
  {
    var cs := Candidates(order, snap);
    if p in NewPairs(g, cs) {
      var c :| c in cs && !Exists(g, c.pair) && c.pair == p;
      var a, i, j := CandidateSource(order, snap, c);
      assert Linked(snap, p.0, i, j) && LinkTarget(snap, p.0, i, j) == p.1;
    }
    if Eligible(g, snap, p) {
      var i, j :| Linked(snap, p.0, i, j) && LinkTarget(snap, p.0, i, j) == p.1;
      assert p.0 in Elements(order);
      LinkIsCandidate(order, snap, p.0, i, j);
    }
  }

  // ---------- Snapshots of a graph ----------

  /** Stored weights lie in (0, 1] and a peak is the largest weight held so far. */
  ghost predicate ValidGraph(g: Graph) {
    forall p | p in g :: 0.0 < g[p].weight <= g[p].peak <= 1.0
  }

  /** Every listed association is a stored edge; the store may list only some. */
  ghost predicate SnapshotOf(g: Graph, snap: Snapshot) {
    forall a, i | a in snap && 0 <= i < |snap[a]| ::
      (a, snap[a][i].target) in g && g[(a, snap[a][i].target)] == Edge(snap[a][i].weight, snap[a][i].peak)
  }

  lemma InferredBounds(a: Id, ab: Assoc, bc: Assoc, m: real)
    requires 0.0 < ab.weight && 0.0 < bc.weight
    requires (ab.weight <= m && bc.weight <= 1.0) || (ab.weight <= 1.0 && bc.weight <= m)
    ensures 0.0 < Inferred(a, ab, bc).weight <= m * 0.8
    ensures Inferred(a, ab, bc).pair == (a, bc.target)
  {
    hide InferredWeight;
    if ab.weight <= m && bc.weight <= 1.0 {
      Discounted(ab.weight, bc.weight, m, 1.0);
    } else {
      Discounted(ab.weight, bc.weight, 1.0, m);
    }
  }

  lemma Discounted(x: real, y: real, m: real, n: real)
    requires 0.0 < x <= m && 0.0 < y <= n
    ensures 0.0 < InferredWeight(x, y) <= m * n * CONFIDENCE_DISCOUNT
  {
  }

  lemma SnapshotCandidatesPositive(g: Graph, order: seq<Id>, snap: Snapshot)
    requires ValidGraph(g) && SnapshotOf(g, snap)
    ensures PositiveCandidates(Candidates(order, snap))
  {
    forall c | c in Candidates(order, snap)
      ensures c.weight > 0.0
    {
      var a, i, j := CandidateSource(order, snap, c);
      var ab, bc := snap[a][i], snap[snap[a][i].target][j];
      assert (a, ab.target) in g && (ab.target, bc.target) in g;
      InferredBounds(a, ab, bc, 1.0);
      hide Inferred;
    }
  }

  /** One run without store errors creates exactly the smaller of the cap and the
      number of eligible pairs of its snapshot, for every iteration order. */
  lemma RunCreatesEligible(g: Graph, order: seq<Id>, snap: Snapshot, max: int, eligible: set<Pair>)
    requires ValidGraph(g) && SnapshotOf(g, snap) && Elements(order) == snap.Keys
    requires forall p :: p in eligible <==> Eligible(g, snap, p)
    ensures var r := Infer(State(g, 0), Candidates(order, snap), max, false, NO_FAULTS);
            && r.inferred == Min(Max(0, max), |eligible|)
            && (r.inferred < max ==> forall p | p in eligible :: Exists(r.graph, p))
  {
    var cs := Candidates(order, snap);
    SnapshotCandidatesPositive(g, order, snap);
    forall p
      ensures p in NewPairs(g, cs) <==> p in eligible
    {
      NewPairsAreEligible(g, order, snap, p);
    }
    assert NewPairs(g, cs) == eligible;
    InferCounts(State(g, 0), cs, max);
    var r := Infer(State(g, 0), cs, max, false, NO_FAULTS);
    if r.inferred < max {
      forall p | p in eligible
        ensures Exists(r.graph, p)
      {
        var c :| c in cs && !Exists(g, c.pair) && c.pair == p;
      }
    }
  }

  // ---------- Any number of runs ----------

  /** A path of exactly `n` edges of `g`. */
  ghost predicate Path(g: Graph, a: Id, c: Id, n: nat)
    decreases n
  {
    if n <= 1 then n == 1 && (a, c) in g
    else exists b :: (a, b) in g && Path(g, b, c, n - 1)
  }

  lemma {:induction false} PathConcat(g: Graph, a: Id, b: Id, c: Id, m: nat, n: nat)
    requires Path(g, a, b, m) && Path(g, b, c, n)
    ensures Path(g, a, c, m + n)
    decreases m
  {
    if m > 1 {
      var x :| (a, x) in g && Path(g, x, b, m - 1);
      PathConcat(g, x, b, c, m - 1, n);
    } else {
      assert (a, b) in g && Path(g, b, c, m + n - 1);
    }
  }

  /** What an inferred edge may look like: it summarises two original edges and
      weighs at most 0.8, or three or four of them and weighs at most 0.64. */
  ghost predicate Derived(origin: Graph, p: Pair, e: Edge) {
    && 0.0 < e.weight == e.peak
    && ((e.weight <= 0.8 && Path(origin, p.0, p.1, 2))
        || (e.weight <= 0.64 && (Path(origin, p.0, p.1, 3) || Path(origin, p.0, p.1, 4))))
  }

  /** Every edge is an untouched original or derived. */
  ghost predicate Grown(origin: Graph, g: Graph) {
    && (forall p | p in origin :: p in g && g[p] == origin[p])
    && (forall p | p in g && p !in origin :: Derived(origin, p, g[p]))
  }

  /** An edge strong enough to seed an inference is an original or summarises
      exactly two originals. */
  lemma SeedsAreShort(origin: Graph, g: Graph, p: Pair)
    requires ValidGraph(origin) && Grown(origin, g) && p in g
    requires Strong(Assoc(p.1, g[p].weight, g[p].peak))
    ensures 0.0 < g[p].weight <= 1.0
    ensures (p in origin && Path(origin, p.0, p.1, 1)) || (g[p].weight <= 0.8 && Path(origin, p.0, p.1, 2))
  {
    if p in origin {
      assert Path(origin, p.0, p.1, 1);
    }
  }

  /** An edge inferred from an inferred edge weighs at most 0.64, so it cannot seed. */
  lemma SecondHandIsWeak(origin: Graph, g: Graph, snap: Snapshot, a: Id, i: int, j: int)
    requires ValidGraph(origin) && Grown(origin, g) && SnapshotOf(g, snap) && Linked(snap, a, i, j)
    requires (a, snap[a][i].target) !in origin || (snap[a][i].target, LinkTarget(snap, a, i, j)) !in origin
    ensures var c := Inferred(a, snap[a][i], snap[snap[a][i].target][j]);
            0.0 < c.weight <= 0.64 && !Strong(Assoc(c.pair.1, c.weight, Max0(c.weight)))
  {
    hide Inferred;
    var ab, bc := snap[a][i], snap[snap[a][i].target][j];
    SeedsAreShort(origin, g, (a, ab.target));
    SeedsAreShort(origin, g, (ab.target, bc.target));
    InferredBounds(a, ab, bc, 0.8);
  }

  lemma CandidateIsDerived(origin: Graph, g: Graph, order: seq<Id>, snap: Snapshot, c: Candidate)
    requires ValidGraph(origin) && Grown(origin, g) && SnapshotOf(g, snap)
    requires c in Candidates(order, snap)
    ensures Derived(origin, c.pair, Edge(c.weight, Max0(c.weight)))
  {
    hide Inferred;
    var a, i, j := CandidateSource(order, snap, c);
    var ab, bc := snap[a][i], snap[snap[a][i].target][j];
    var b := ab.target;
    assert g[(a, b)] == Edge(ab.weight, ab.peak) && g[(b, bc.target)] == Edge(bc.weight, bc.peak);
    SeedsAreShort(origin, g, (a, b));
    SeedsAreShort(origin, g, (b, bc.target));
    var m := if (a, b) in origin then 1 else 2;
    var n := if (b, bc.target) in origin then 1 else 2;
    PathConcat(origin, a, b, bc.target, m, n);
    InferredBounds(a, ab, bc, if m == n == 1 then 1.0 else 0.8);
  }

  lemma {:induction false} InferGrows(origin: Graph, s: State, cs: seq<Candidate>, max: int, dryRun: bool,
                                      faults: Faults)
    requires ValidGraph(origin) && Grown(origin, s.graph)
    requires forall c | c in cs :: Derived(origin, c.pair, Edge(c.weight, Max0(c.weight)))
    ensures Grown(origin, Infer(s, cs, max, dryRun, faults).graph)
    ensures forall p | p in s.graph :: p in Infer(s, cs, max, dryRun, faults).graph
                                      && Infer(s, cs, max, dryRun, faults).graph[p] == s.graph[p]
    decreases |cs|
  {
    hide Path;
    if cs != [] {
      assert cs[0] in cs;
      if Skips(s, cs[0], faults) {
        InferGrows(origin, s, cs[1..], max, dryRun, faults);
      } else if s.inferred < max {
        assert cs[0].pair !in s.graph;
        InferGrows(origin, Apply(s, cs[0], dryRun, faults), cs[1..], max, dryRun, faults);
      }
    }
  }

  /** The inputs of one run: what the store lists, in which order the map is
      walked, the settings and the store errors. */
  datatype Run = Run(order: seq<Id>, snap: Snapshot, max: int, dryRun: bool, faults: Faults)

  function After(g: Graph, run: Run): Graph {
    Infer(State(g, 0), Candidates(run.order, run.snap), run.max, run.dryRun, run.faults).graph
  }

  function AfterAll(g: Graph, runs: seq<Run>): Graph {
    if runs == [] then g else After(AfterAll(g, runs[..|runs| - 1]), runs[|runs| - 1])
  }

  /** Each run starts from a snapshot of what the previous ones left. */
  ghost predicate ValidRuns(g: Graph, runs: seq<Run>) {
    runs != [] ==>
      && ValidRuns(g, runs[..|runs| - 1])
      && SnapshotOf(AfterAll(g, runs[..|runs| - 1]), runs[|runs| - 1].snap)
  }

  lemma RunGrows(origin: Graph, g: Graph, run: Run)
    requires ValidGraph(origin) && Grown(origin, g) && SnapshotOf(g, run.snap)
    ensures Grown(origin, After(g, run))
    ensures forall p | p in g :: p in After(g, run) && After(g, run)[p] == g[p]
  {
    forall c | c in Candidates(run.order, run.snap)
      ensures Derived(origin, c.pair, Edge(c.weight, Max0(c.weight)))
    {
      CandidateIsDerived(origin, g, run.order, run.snap, c);
    }
    InferGrows(origin, State(g, 0), Candidates(run.order, run.snap), run.max, run.dryRun, run.faults);
  }

  /** Over any number of runs, with any errors, caps and orders: original edges are
      untouched and every other edge summarises two to four of them, at most 0.64
      in weight when more than two. */
  lemma {:induction false} RunsGrow(origin: Graph, runs: seq<Run>)
    requires ValidGraph(origin) && ValidRuns(origin, runs)
    ensures Grown(origin, AfterAll(origin, runs))
  {
    if runs != [] {
      RunsGrow(origin, runs[..|runs| - 1]);
      RunGrows(origin, AfterAll(origin, runs[..|runs| - 1]), runs[|runs| - 1]);
    }
  }

  /** No later run changes an edge. */
  lemma {:induction false} RunsKeepEdges(origin: Graph, runs: seq<Run>, more: seq<Run>, p: Pair)
    requires ValidGraph(origin) && ValidRuns(origin, runs + more) && p in AfterAll(origin, runs)
    ensures p in AfterAll(origin, runs + more) && AfterAll(origin, runs + more)[p] == AfterAll(origin, runs)[p]
    decreases |more|
  {
    if more == [] {
      assert runs + more == runs;
    } else {
      var init, all := more[..|more| - 1], runs + more;
      assert all[..|all| - 1] == runs + init;
      RunsKeepEdges(origin, runs, init, p);
      RunsGrow(origin, runs + init);
      RunGrows(origin, AfterAll(origin, runs + init), all[|all| - 1]);
    }
  }

  /** What a run writes for a link through an inferred edge is listed as weak by every
      later run, so it never seeds another inference. */
  lemma SecondHandNeverSeeds(origin: Graph, runs: seq<Run>, run: Run, more: seq<Run>, a: Id, i: int, j: int)
    requires ValidGraph(origin) && ValidRuns(origin, runs + [run] + more)
    requires Linked(run.snap, a, i, j)
    requires (a, run.snap[a][i].target) !in origin || (run.snap[a][i].target, LinkTarget(run.snap, a, i, j)) !in origin
    requires var c := Inferred(a, run.snap[a][i], run.snap[run.snap[a][i].target][j]);
             c.pair in AfterAll(origin, runs + [run])
             && AfterAll(origin, runs + [run])[c.pair] == Edge(c.weight, Max0(c.weight))
    ensures var p, g := (a, LinkTarget(run.snap, a, i, j)), AfterAll(origin, runs + [run] + more);
            p in g && g[p].weight <= 0.64 && !Strong(Assoc(p.1, g[p].weight, g[p].peak))
  {
    hide Inferred, Strong, Path;
    ValidPrefix(origin, runs + [run], more);
    ValidPrefix(origin, runs, [run]);
    assert (runs + [run])[..|runs|] == runs;
    RunsGrow(origin, runs);
    SecondHandIsWeak(origin, AfterAll(origin, runs), run.snap, a, i, j);
    InferredPair(a, run.snap[a][i], run.snap[run.snap[a][i].target][j]);
    RunsKeepEdges(origin, runs + [run], more, (a, LinkTarget(run.snap, a, i, j)));
  }

  lemma InferredPair(a: Id, ab: Assoc, bc: Assoc)
    ensures Inferred(a, ab, bc).pair == (a, bc.target)
  {
  }

  lemma {:induction false} ValidPrefix(g: Graph, runs: seq<Run>, more: seq<Run>)
    requires ValidRuns(g, runs + more)
    ensures ValidRuns(g, runs)
    decreases |more|
  {
    if more == [] {
      assert runs + more == runs;
    } else {
      assert (runs + more)[..|runs + more| - 1] == runs + more[..|more| - 1];
      ValidPrefix(g, runs, more[..|more| - 1]);
    }
  }

  /** Two opposite strong edges make a run link a node to itself: the source has no test
      that C differs from A. */
  lemma InfersSelfLoop(a: Id, b: Id, wab: real, wba: real, max: int)
    requires a != b && 0.7 <= wab <= 1.0 && 0.7 <= wba <= 1.0 && max >= 1
    ensures var g := map[(a, b) := Edge(wab, wab), (b, a) := Edge(wba, wba)];
            var snap := map[a := [Assoc(b, wab, wab)], b := [Assoc(a, wba, wba)]];
            && ValidGraph(g) && SnapshotOf(g, snap)
            && (a, a) in After(g, Run([a, b], snap, max, false, NO_FAULTS))
  {
    var g := map[(a, b) := Edge(wab, wab), (b, a) := Edge(wba, wba)];
    var ab, ba := Assoc(b, wab, wab), Assoc(a, wba, wba);
    var snap := map[a := [ab], b := [ba]];
    var c := Inferred(a, ab, ba);
    assert [ba][1..] == [] && [ab][1..] == [] && [a, b][1..] == [b];
    assert Through(a, ab, [ba]) == [c];
    assert From(a, [ab], snap) == [c];
    var cs := Candidates([a, b], snap);
    assert cs[0] == c;
    FirstIsWritten(g, cs, max);
  }

  /** A run with room writes its first candidate, if the pair is missing. */
  lemma FirstIsWritten(g: Graph, cs: seq<Candidate>, max: int)
    requires cs != [] && cs[0].pair !in g && max >= 1
    ensures cs[0].pair in Infer(State(g, 0), cs, max, false, NO_FAULTS).graph
  {
    OnlyAdds(Apply(State(g, 0), cs[0], false, NO_FAULTS), cs[1..], max);
  }

  lemma {:induction false} OnlyAdds(s: State, cs: seq<Candidate>, max: int)
    ensures s.graph.Keys <= Infer(s, cs, max, false, NO_FAULTS).graph.Keys
    decreases |cs|
  {
    if cs != [] {
      if Skips(s, cs[0], NO_FAULTS) {
        OnlyAdds(s, cs[1..], max);
      } else if s.inferred < max {
        OnlyAdds(Apply(s, cs[0], false, NO_FAULTS), cs[1..], max);
      }
    }
  }
}
