/** Phase 5 of the dream pass: infer A -> C from strong A -> B and B -> C, reading the
    store it writes. */
module Transitive {

  import opened Common

  datatype Edge = Edge(weight: real, peak: real)
  type Pair = (Id, Id)
  type Graph = map<Pair, Edge>

  /** One outgoing association as the store lists it. */
  datatype Assoc = Assoc(target: Id, weight: real, peak: real)
  type Snapshot = map<Id, seq<Assoc>>

  const MIN_WEIGHT := 0.7
  const CONFIDENCE_DISCOUNT := 0.8

  /** The effective weight is the larger of the current one and its peak. */
  predicate Strong(x: Assoc) {
    (if x.peak > x.weight then x.peak else x.weight) >= MIN_WEIGHT
  }

  predicate Exists(g: Graph, p: Pair) {
    p in g && g[p].weight > 0.0
  }

  /** A candidate inference: the pair it would link and the weight it would get. */
  datatype Candidate = Candidate(pair: Pair, weight: real)

  function InferredWeight(ab: real, bc: real): real {
    ab * bc * CONFIDENCE_DISCOUNT
  }

  function Inferred(a: Id, ab: Assoc, bc: Assoc): Candidate {
    Candidate((a, bc.target), InferredWeight(ab.weight, bc.weight))
  }

  // ---------- The triple loop as a list of candidates ----------

  function Through(a: Id, ab: Assoc, bcs: seq<Assoc>): seq<Candidate> {
    if bcs == [] then []
    else if Strong(bcs[0]) then [Inferred(a, ab, bcs[0])] + Through(a, ab, bcs[1..])
    else Through(a, ab, bcs[1..])
  }

  function From(a: Id, abs: seq<Assoc>, snap: Snapshot): seq<Candidate> {
    if abs == [] then []
    else if Strong(abs[0]) && abs[0].target in snap then
      Through(a, abs[0], snap[abs[0].target]) + From(a, abs[1..], snap)
    else
      From(a, abs[1..], snap)
  }

  function Candidates(order: seq<Id>, snap: Snapshot): seq<Candidate> {
    if order == [] then []
    else if order[0] in snap then From(order[0], snap[order[0]], snap) + Candidates(order[1..], snap)
    else Candidates(order[1..], snap)
  }

  // ---------- The effect of the candidates, in order ----------

  datatype Faults = Faults(unreadable: set<Pair>, unwritable: set<Pair>)
  datatype State = State(graph: Graph, inferred: nat)

  function Apply(s: State, c: Candidate, dryRun: bool, faults: Faults): State {
    if dryRun then s.(inferred := s.inferred + 1)
    else if c.pair in faults.unwritable then s
    else State(s.graph[c.pair := Edge(c.weight, Max0(c.weight))], s.inferred + 1)
  }

  /** The peak of a brand-new edge: the larger of no peak and its weight. */
  function Max0(w: real): real {
    if w > 0.0 then w else 0.0
  }

  predicate Skips(s: State, c: Candidate, faults: Faults) {
    c.pair in faults.unreadable || Exists(s.graph, c.pair)
  }

  function Infer(s: State, cs: seq<Candidate>, max: int, dryRun: bool, faults: Faults): State
    decreases |cs|
  {
    if cs == [] then s
    else if Skips(s, cs[0], faults) then Infer(s, cs[1..], max, dryRun, faults)
    else if s.inferred >= max then s
    else Infer(Apply(s, cs[0], dryRun, faults), cs[1..], max, dryRun, faults)
  }

  // ---------- The loops of the source ----------

  class TransitiveWorker {
    var graph: Graph
    var inferred: nat
    const maxTransitive: int
    const dryRun: bool

    constructor (graph: Graph, maxTransitive: int, dryRun: bool)
      ensures this.graph == graph && inferred == 0
      ensures this.maxTransitive == maxTransitive && this.dryRun == dryRun
    {
      this.graph, inferred, this.maxTransitive, this.dryRun := graph, 0, maxTransitive, dryRun;
    }

    ghost function Current(): State
      reads this
    {
      State(graph, inferred)
    }

    /** The innermost loop. `stop` is the jump out of all loops once the cap is
        reached; then every later candidate is skipped too. */
    method InferThrough(a: Id, ab: Assoc, bcs: seq<Assoc>, faults: Faults, ghost rest: seq<Candidate>)
      returns (stop: bool)
      modifies this`graph, this`inferred
      ensures Infer(old(Current()), Through(a, ab, bcs) + rest, maxTransitive, dryRun, faults) ==
              if stop then Current() else Infer(Current(), rest, maxTransitive, dryRun, faults)
    {
      hide Strong;
      stop := false;
      ghost var final := Infer(Current(), Through(a, ab, bcs) + rest, maxTransitive, dryRun, faults);
      for i := 0 to |bcs|
        invariant Infer(Current(), Through(a, ab, bcs[i..]) + rest, maxTransitive, dryRun, faults) == final
      {
        assert bcs[i..][1..] == bcs[i + 1..];
        ghost var later := Through(a, ab, bcs[i + 1..]) + rest;
        if !Strong(bcs[i]) {
          assert Through(a, ab, bcs[i..]) + rest == later;
          continue;
        }
        var next := Inferred(a, ab, bcs[i]);
        assert Through(a, ab, bcs[i..]) + rest == [next] + later;
        assert ([next] + later)[1..] == later;
        var c := bcs[i].target;
        if (a, c) in faults.unreadable {
          continue;
        }
        if Exists(graph, (a, c)) {
          continue;
        }
        if inferred >= maxTransitive {
          return true;
        }
        if !dryRun {
          if (a, c) in faults.unwritable {
            continue;
          }
          graph := graph[(a, c) := Edge(next.weight, Max0(next.weight))];
        }
        inferred := inferred + 1;
      }
      assert bcs[|bcs|..] == [];
      assert [] + rest == rest;
    }

    method InferFrom(a: Id, abs: seq<Assoc>, snap: Snapshot, faults: Faults, ghost rest: seq<Candidate>)
      returns (stop: bool)
      modifies this`graph, this`inferred
      ensures Infer(old(Current()), From(a, abs, snap) + rest, maxTransitive, dryRun, faults) ==
              if stop then Current() else Infer(Current(), rest, maxTransitive, dryRun, faults)
    {
      hide Strong, Infer;
      stop := false;
      ghost var final := Infer(Current(), From(a, abs, snap) + rest, maxTransitive, dryRun, faults);
      for i := 0 to |abs|
        invariant Infer(Current(), From(a, abs[i..], snap) + rest, maxTransitive, dryRun, faults) == final
      {
        assert abs[i..][1..] == abs[i + 1..];
        ghost var later := From(a, abs[i + 1..], snap) + rest;
        if !Strong(abs[i]) || abs[i].target !in snap {
          assert From(a, abs[i..], snap) + rest == later;
          continue;
        }
        var bcs := snap[abs[i].target];
        assert From(a, abs[i..], snap) + rest == Through(a, abs[i], bcs) + later;
        stop := InferThrough(a, abs[i], bcs, faults, later);
        if stop {
          return;
        }
      }
      assert abs[|abs|..] == [];
      assert [] + rest == rest;
    }

    /** One run over a snapshot, the source nodes taken in any order. */
    method RunPhase5(order: seq<Id>, snap: Snapshot, faults: Faults)
      modifies this
      ensures Current() == Infer(State(old(graph), 0), Candidates(order, snap), maxTransitive, dryRun, faults)
    {
      hide From;
      inferred := 0;
      ghost var final := Infer(Current(), Candidates(order, snap), maxTransitive, dryRun, faults);
      assert order[0..] == order;
      for i := 0 to |order|
        invariant Infer(Current(), Candidates(order[i..], snap), maxTransitive, dryRun, faults) == final
      {
        assert order[i..][1..] == order[i + 1..];
        if order[i] in snap {
          var stop := InferFrom(order[i], snap[order[i]], snap, faults, Candidates(order[i + 1..], snap));
          if stop {
            return;
          }
        }
      }
      assert order[|order|..] == [];
    }
  }
}
