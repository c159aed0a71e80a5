/** Why repeating transitive inference comes to rest: what a complete run links, why two of
    them suffice, and why capped runs settle within as many runs as there are node pairs. */
module TransitiveFixpoints {

  import opened Common
  import opened Transitive
  import opened TransitiveRuns

  // ---------- What one run adds ----------

  ghost predicate MadeFrom(cs: seq<Candidate>, p: Pair, e: Edge) {
    exists c :: c in cs && c.pair == p && e == Edge(c.weight, Max0(c.weight))
  }

  lemma MadeFromMore(cs: seq<Candidate>, p: Pair, e: Edge)
    requires cs != [] && MadeFrom(cs[1..], p, e)
    ensures MadeFrom(cs, p, e)
  {
  }

  /** Every edge a run leaves was there before or is one of its candidates. */
  lemma {:induction false} AddedIsCandidate(s: State, cs: seq<Candidate>, max: int, dryRun: bool, faults: Faults,
                                            p: Pair)
    requires p in Infer(s, cs, max, dryRun, faults).graph
    ensures var e := Infer(s, cs, max, dryRun, faults).graph[p];
            (p in s.graph && e == s.graph[p]) || MadeFrom(cs, p, e)
    decreases |cs|
  {
    if cs != [] && (Skips(s, cs[0], faults) || s.inferred < max) {
      var s' := if Skips(s, cs[0], faults) then s else Apply(s, cs[0], dryRun, faults);
      AddedIsCandidate(s', cs[1..], max, dryRun, faults, p);
      var e := Infer(s, cs, max, dryRun, faults).graph[p];
      if MadeFrom(cs[1..], p, e) {
        MadeFromMore(cs, p, e);
      } else if !(p in s.graph && e == s.graph[p]) {
        assert cs[0] in cs;
      }
    }
  }

  /** The number of edges grows by the number of inferences. */
  lemma {:induction false} InferAddsEdges(s: State, cs: seq<Candidate>, max: int, faults: Faults)
    requires PositiveCandidates(cs) && forall p | p in s.graph :: Exists(s.graph, p)
    ensures var r := Infer(s, cs, max, false, faults);
            |r.graph.Keys| - r.inferred == |s.graph.Keys| - s.inferred
    decreases |cs|
  {
    if cs != [] && (Skips(s, cs[0], faults) || s.inferred < max) {
      assert cs[0] in cs;
      if !Skips(s, cs[0], faults) && cs[0].pair !in faults.unwritable {
        var s' := Apply(s, cs[0], false, faults);
        assert s'.graph.Keys == s.graph.Keys + {cs[0].pair};
        InferAddsEdges(s', cs[1..], max, faults);
      } else {
        InferAddsEdges(s, cs[1..], max, faults);
      }
    }
  }

  // ---------- Self-loops ----------

  /** A run that meets neither errors nor its cap links a node to itself exactly when the
      snapshot holds a way out of the node and back along strong edges. */
  lemma SelfLoopIff(g: Graph, order: seq<Id>, snap: Snapshot, max: int, eligible: set<Pair>, a: Id)
    requires ValidGraph(g) && SnapshotOf(g, snap) && Elements(order) == snap.Keys && (a, a) !in g
    requires (forall p :: p in eligible <==> Eligible(g, snap, p)) && |eligible| < max
    ensures (a, a) in After(g, Run(order, snap, max, false, NO_FAULTS)) <==>
            exists i, j :: Linked(snap, a, i, j) && LinkTarget(snap, a, i, j) == a
  {
    var cs := Candidates(order, snap);
    RunCreatesEligible(g, order, snap, max, eligible);
    if (a, a) in After(g, Run(order, snap, max, false, NO_FAULTS)) {
      AddedIsCandidate(State(g, 0), cs, max, false, NO_FAULTS, (a, a));
      var c :| c in cs && c.pair == (a, a);
      var b, i, j := CandidateSource(order, snap, c);
      assert Linked(snap, a, i, j) && LinkTarget(snap, a, i, j) == a;
    }
    if exists i, j :: Linked(snap, a, i, j) && LinkTarget(snap, a, i, j) == a {
      assert Eligible(g, snap, (a, a));
    }
  }

  // ---------- Settled graphs ----------

  ghost predicate IsStrong(g: Graph, p: Pair) {
    p in g && Strong(Assoc(p.1, g[p].weight, g[p].peak))
  }

  /** Any two strong edges in a row are linked directly. */
  ghost predicate Settled(g: Graph) {
    forall a, b, c | IsStrong(g, (a, b)) && IsStrong(g, (b, c)) :: Exists(g, (a, c))
  }

  /** The snapshot lists every stored edge. */
  ghost predicate Full(g: Graph, snap: Snapshot) {
    && SnapshotOf(g, snap)
    && forall p | p in g :: p.0 in snap && exists i :: 0 <= i < |snap[p.0]| && snap[p.0][i].target == p.1
  }

  lemma GrownIsValid(origin: Graph, g: Graph)
    requires ValidGraph(origin) && Grown(origin, g)
    ensures ValidGraph(g) && forall p | p in g :: Exists(g, p)
  {
    hide Path;
  }

  lemma LinkIsStrong(g: Graph, snap: Snapshot, a: Id, i: int, j: int)
    requires SnapshotOf(g, snap) && Linked(snap, a, i, j)
    ensures IsStrong(g, (a, snap[a][i].target)) && IsStrong(g, (snap[a][i].target, LinkTarget(snap, a, i, j)))
  {
  }

  /** In a full snapshot two strong edges in a row are a candidate. */
  lemma StrongIsLinked(g: Graph, order: seq<Id>, snap: Snapshot, a: Id, b: Id, c: Id) returns (d: Candidate)
    requires Full(g, snap) && Elements(order) == snap.Keys && IsStrong(g, (a, b)) && IsStrong(g, (b, c))
    ensures d in Candidates(order, snap) && d.pair == (a, c)
  {
    assert (a, b).0 in snap && (b, c).0 in snap;
    var i :| 0 <= i < |snap[a]| && snap[a][i].target == b;
    var j :| 0 <= j < |snap[b]| && snap[b][j].target == c;
    assert Linked(snap, a, i, j);
    assert a in Elements(order);
    d := Inferred(a, snap[a][i], snap[b][j]);
    LinkIsCandidate(order, snap, a, i, j);
  }

  lemma {:induction false} AllSkipped(s: State, cs: seq<Candidate>, max: int, dryRun: bool, faults: Faults)
    requires forall c | c in cs :: Exists(s.graph, c.pair)
    ensures Infer(s, cs, max, dryRun, faults) == s
    decreases |cs|
  {
    if cs != [] {
      assert cs[0] in cs;
      AllSkipped(s, cs[1..], max, dryRun, faults);
    }
  }

  /** A settled graph is a fixpoint of every run, whatever it lists, fails or caps. */
  lemma SettledIsFixpoint(g: Graph, run: Run)
    requires Settled(g) && SnapshotOf(g, run.snap)
    ensures After(g, run) == g
  {
    var cs := Candidates(run.order, run.snap);
    forall c | c in cs
      ensures Exists(g, c.pair)
    {
      var a, i, j := CandidateSource(run.order, run.snap, c);
      LinkIsStrong(g, run.snap, a, i, j);
    }
    AllSkipped(State(g, 0), cs, run.max, run.dryRun, run.faults);
  }

  // ---------- Complete runs ----------

  /** A real run over everything stored, without store errors. */
  ghost predicate Sound(g: Graph, run: Run) {
    Full(g, run.snap) && Elements(run.order) == run.snap.Keys && !run.dryRun && run.faults == NO_FAULTS
  }

  /** One that does not meet its cap. */
  ghost predicate Complete(g: Graph, run: Run) {
    Sound(g, run) && Infer(State(g, 0), Candidates(run.order, run.snap), run.max, false, NO_FAULTS).inferred < run.max
  }

  /** After a complete run any two edges that were strong in a row are linked. */
  lemma CompleteLinks(g: Graph, run: Run, a: Id, b: Id, c: Id)
    requires ValidGraph(g) && Complete(g, run) && IsStrong(g, (a, b)) && IsStrong(g, (b, c))
    ensures Exists(After(g, run), (a, c))
  {
    SnapshotCandidatesPositive(g, run.order, run.snap);
    InferCounts(State(g, 0), Candidates(run.order, run.snap), run.max);
    var d := StrongIsLinked(g, run.order, run.snap, a, b, c);
  }

  /** What a second complete run adds runs through an inferred edge, so it is weak. */
  lemma SecondRunAddsWeak(origin: Graph, r1: Run, r2: Run, p: Pair)
    requires ValidGraph(origin) && Complete(origin, r1)
    requires var g1 := After(origin, r1); SnapshotOf(g1, r2.snap) && p !in g1 && p in After(g1, r2)
    ensures !IsStrong(After(After(origin, r1), r2), p)
  {
    var g1 := After(origin, r1);
    RunGrows(origin, origin, r1);
    AddedIsCandidate(State(g1, 0), Candidates(r2.order, r2.snap), r2.max, r2.dryRun, r2.faults, p);
    var d :| d in Candidates(r2.order, r2.snap) && d.pair == p
             && After(g1, r2)[p] == Edge(d.weight, Max0(d.weight));
    var a, i, j := CandidateSource(r2.order, r2.snap, d);
    var b, c := r2.snap[a][i].target, LinkTarget(r2.snap, a, i, j);
    LinkIsStrong(g1, r2.snap, a, i, j);
    hide Inferred, Strong, Path;
    InferredPair(a, r2.snap[a][i], r2.snap[b][j]);
    if (a, b) in origin && (b, c) in origin {
      CompleteLinks(origin, r1, a, b, c);
      assert false;
    }
    SecondHandIsWeak(origin, g1, r2.snap, a, i, j);
  }

  /** Two complete runs settle a graph: no further run changes anything. */
  lemma TwoRunsSettle(origin: Graph, r1: Run, r2: Run, r3: Run)
    requires ValidGraph(origin) && Complete(origin, r1) && Complete(After(origin, r1), r2)
    requires SnapshotOf(After(After(origin, r1), r2), r3.snap)
    ensures var g2 := After(After(origin, r1), r2); Settled(g2) && After(g2, r3) == g2
  {
    hide Strong, Path, Infer;
    var g1 := After(origin, r1);
    RunGrows(origin, origin, r1);
    GrownIsValid(origin, g1);
    RunGrows(origin, g1, r2);
    var g2 := After(g1, r2);
    forall a, b, c | IsStrong(g2, (a, b)) && IsStrong(g2, (b, c))
      ensures Exists(g2, (a, c))
    {
      if (a, b) !in g1 {
        SecondRunAddsWeak(origin, r1, r2, (a, b));
      }
      if (b, c) !in g1 {
        SecondRunAddsWeak(origin, r1, r2, (b, c));
      }
      CompleteLinks(g1, r2, a, b, c);
    }
    SettledIsFixpoint(g2, r3);
  }

  // ---------- Capped runs ----------

  /** A sound run with room for one edge adds an edge, or the graph had settled. */
  lemma CappedRunProgresses(g: Graph, run: Run)
    requires ValidGraph(g) && Sound(g, run) && run.max >= 1
    ensures Settled(g) || |After(g, run).Keys| > |g.Keys|
  {
    var cs := Candidates(run.order, run.snap);
    SnapshotCandidatesPositive(g, run.order, run.snap);
    InferCounts(State(g, 0), cs, run.max);
    InferAddsEdges(State(g, 0), cs, run.max, NO_FAULTS);
    if a, b, c :| IsStrong(g, (a, b)) && IsStrong(g, (b, c)) && !Exists(g, (a, c)) {
      var d := StrongIsLinked(g, run.order, run.snap, a, b, c);
      assert (a, c) in NewPairs(g, cs);
    }
  }

  ghost function Nodes(g: Graph): set<Id> {
    (set p | p in g :: p.0) + (set p | p in g :: p.1)
  }

  ghost function NodePairs(g: Graph): set<Pair> {
    set a, b | a in Nodes(g) && b in Nodes(g) :: (a, b)
  }

  lemma {:induction false} PathEnds(g: Graph, a: Id, c: Id, n: nat)
    requires Path(g, a, c, n)
    ensures a in Nodes(g) && c in Nodes(g)
    decreases n
  {
    if n <= 1 {
      assert (a, c) in g && (a, c).0 == a && (a, c).1 == c;
    } else {
      var b :| (a, b) in g && Path(g, b, c, n - 1);
      assert (a, b).0 == a;
      PathEnds(g, b, c, n - 1);
    }
  }

  /** Inference never leaves the nodes of the original edges. */
  lemma GrownWithinNodes(origin: Graph, g: Graph)
    requires ValidGraph(origin) && Grown(origin, g)
    ensures g.Keys <= NodePairs(origin)
  {
    forall p | p in g
      ensures p in NodePairs(origin)
    {
      if p in origin {
        assert (p.0, p.1) == p && p.0 in Nodes(origin) && p.1 in Nodes(origin);
      } else {
        var n: nat :| Path(origin, p.0, p.1, n);
        PathEnds(origin, p.0, p.1, n);
        assert (p.0, p.1) == p;
      }
    }
  }

  /** Consecutive sound runs, each with room for at least one edge. */
  ghost predicate SoundRuns(g: Graph, runs: seq<Run>) {
    runs != [] ==>
      && SoundRuns(g, runs[..|runs| - 1])
      && Sound(AfterAll(g, runs[..|runs| - 1]), runs[|runs| - 1]) && runs[|runs| - 1].max >= 1
  }

  lemma {:induction false} CappedRunsProgress(origin: Graph, runs: seq<Run>)
    requires ValidGraph(origin) && SoundRuns(origin, runs)
    ensures var g := AfterAll(origin, runs);
            Grown(origin, g) && (Settled(g) || |g.Keys| >= |origin.Keys| + |runs|)
  {
    if runs != [] {
      var init, run := runs[..|runs| - 1], runs[|runs| - 1];
      CappedRunsProgress(origin, init);
      var g := AfterAll(origin, init);
      hide Settled, Path, After;
      GrownIsValid(origin, g);
      RunGrows(origin, g, run);
      CappedRunProgresses(g, run);
      if Settled(g) {
        SettledIsFixpoint(g, run);
      }
    }
  }

  /** Capped runs settle too: as many of them as there are pairs of nodes not yet linked
      reach a graph that no further run changes. */
  lemma CappedRunsSettle(origin: Graph, runs: seq<Run>, next: Run)
    requires ValidGraph(origin) && SoundRuns(origin, runs)
    requires |origin.Keys| + |runs| >= |NodePairs(origin)|
    requires SnapshotOf(AfterAll(origin, runs), next.snap)
    ensures var g := AfterAll(origin, runs); Settled(g) && After(g, next) == g
  {
    var g := AfterAll(origin, runs);
    CappedRunsProgress(origin, runs);
    if !Settled(g) {
      GrownWithinNodes(origin, g);
      SubsetSize(g.Keys, NodePairs(origin));
      AllLinkedIsSettled(origin, g);
    }
    SettledIsFixpoint(g, next);
  }

  lemma AllLinkedIsSettled(origin: Graph, g: Graph)
    requires ValidGraph(origin) && Grown(origin, g) && g.Keys == NodePairs(origin)
    ensures Settled(g)
  {
    GrownIsValid(origin, g);
    hide Path, Grown, Strong;
    forall a, b, c | IsStrong(g, (a, b)) && IsStrong(g, (b, c))
      ensures Exists(g, (a, c))
    {
      assert (a, b) in NodePairs(origin) && (b, c) in NodePairs(origin);
      assert a in Nodes(origin) && c in Nodes(origin);
      assert (a, c) in NodePairs(origin);
    }
  }
}
