/** What a dry run of transitive inference predicts: it counts paths, the real run pairs. */
module TransitiveDryRuns {

  import opened Common
  import opened Transitive
  import opened TransitiveRuns

  // ---------- Paths and pairs ----------

  /** How many candidates, counted with repetition, name a missing pair. */
  ghost function NewPaths(g: Graph, cs: seq<Candidate>): nat {
    if cs == [] then 0
    else (if Exists(g, cs[0].pair) then 0 else 1) + NewPaths(g, cs[1..])
  }

  /** A dry run writes nothing, so it counts paths and not pairs. */
  lemma {:induction false} DryRunCountsPaths(s: State, cs: seq<Candidate>, max: int, writeFaults: set<Pair>)
    requires s.inferred <= Max(0, max)
    ensures var r := Infer(s, cs, max, true, Faults({}, writeFaults));
            && r.graph == s.graph
            && r.inferred == Min(Max(0, max), s.inferred + NewPaths(s.graph, cs))
    decreases |cs|
  {
    if cs != [] {
      if Exists(s.graph, cs[0].pair) {
        DryRunCountsPaths(s, cs[1..], max, writeFaults);
      } else if s.inferred < max {
        DryRunCountsPaths(s.(inferred := s.inferred + 1), cs[1..], max, writeFaults);
      }
    }
  }

  ghost predicate EachPairOnce(g: Graph, cs: seq<Candidate>) {
    forall i, j | 0 <= i < j < |cs| && cs[i].pair == cs[j].pair :: Exists(g, cs[i].pair)
  }

  /** Paths and pairs agree exactly when no missing pair is reached twice. */
  lemma {:induction false} PathsVersusPairs(g: Graph, cs: seq<Candidate>)
    ensures |NewPairs(g, cs)| <= NewPaths(g, cs)
    ensures |NewPairs(g, cs)| == NewPaths(g, cs) <==> EachPairOnce(g, cs)
  {
    if cs != [] {
      var c, tail := cs[0], cs[1..];
      PathsVersusPairs(g, tail);
      assert cs == [c] + tail;
      if Exists(g, c.pair) {
        assert NewPairs(g, cs) == NewPairs(g, tail);
        assert EachPairOnce(g, cs) <==> EachPairOnce(g, tail) by {
          SplitOnce(g, cs);
        }
      } else {
        assert c in cs && NewPairs(g, cs) == NewPairs(g, tail) + {c.pair};
        SplitOnce(g, cs);
      }
    }
  }

  lemma SplitOnce(g: Graph, cs: seq<Candidate>)
    requires cs != []
    ensures EachPairOnce(g, cs) <==>
            EachPairOnce(g, cs[1..]) && (Exists(g, cs[0].pair) || cs[0].pair !in NewPairs(g, cs[1..]))
  {
  }

  lemma DryVersusReal(g: Graph, cs: seq<Candidate>, max: int)
    requires PositiveCandidates(cs)
    ensures var dry := Infer(State(g, 0), cs, max, true, NO_FAULTS).inferred;
            var wet := Infer(State(g, 0), cs, max, false, NO_FAULTS).inferred;
            && dry >= wet
            && (dry == wet <==> EachPairOnce(g, cs) || |NewPairs(g, cs)| >= Max(0, max))
  {
    InferCounts(State(g, 0), cs, max);
    DryRunCountsPaths(State(g, 0), cs, max, {});
    PathsVersusPairs(g, cs);
  }

  // ---------- Links of a snapshot ----------

  /** Two strong listed edges in a row, the first of them entry `i` of `abs`. */
  ghost predicate LinkedFrom(abs: seq<Assoc>, snap: Snapshot, i: int, j: int) {
    && 0 <= i < |abs| && Strong(abs[i]) && abs[i].target in snap
    && 0 <= j < |snap[abs[i].target]| && Strong(snap[abs[i].target][j])
  }

  ghost function EndOf(abs: seq<Assoc>, snap: Snapshot, i: int, j: int): Id
    requires LinkedFrom(abs, snap, i, j)
  {
    snap[abs[i].target][j].target
  }

  /** No missing pair from `a` is reached along two different links. */
  ghost predicate OneLinkFrom(g: Graph, a: Id, abs: seq<Assoc>, snap: Snapshot) {
    forall i, j, i', j' |
      LinkedFrom(abs, snap, i, j) && LinkedFrom(abs, snap, i', j')
          && EndOf(abs, snap, i, j) == EndOf(abs, snap, i', j') ::
      Exists(g, (a, EndOf(abs, snap, i, j))) || (i == i' && j == j')
  }

  /** The same for a whole snapshot. */
  ghost predicate OneLinkEach(g: Graph, snap: Snapshot) {
    forall a, i, j, i', j' |
      Linked(snap, a, i, j) && Linked(snap, a, i', j') && LinkTarget(snap, a, i, j) == LinkTarget(snap, a, i', j') ::
      Exists(g, (a, LinkTarget(snap, a, i, j))) || (i == i' && j == j')
  }

  ghost predicate Apart(g: Graph, x: seq<Candidate>, y: seq<Candidate>) {
    forall c, d | c in x && d in y && c.pair == d.pair :: Exists(g, c.pair)
  }

  lemma OnceConcat(g: Graph, x: seq<Candidate>, y: seq<Candidate>)
    ensures EachPairOnce(g, x + y) <==> EachPairOnce(g, x) && EachPairOnce(g, y) && Apart(g, x, y)
  {
    var z := x + y;
    if EachPairOnce(g, z) {
      assert forall i | 0 <= i < |x| :: x[i] == z[i];
      assert forall j | 0 <= j < |y| :: y[j] == z[|x| + j];
    }
  }

  lemma {:induction false} ThroughOnce(g: Graph, a: Id, ab: Assoc, bcs: seq<Assoc>)
    ensures EachPairOnce(g, Through(a, ab, bcs)) <==>
            forall j, j' | 0 <= j < j' < |bcs| && Strong(bcs[j]) && Strong(bcs[j'])
                && bcs[j].target == bcs[j'].target ::
              Exists(g, (a, bcs[j].target))
  {
    hide Strong;
    if bcs != [] {
      var tail := bcs[1..];
      ThroughOnce(g, a, ab, tail);
      assert forall j | 0 < j < |bcs| :: bcs[j] == tail[j - 1];
      if Strong(bcs[0]) {
        var c := Inferred(a, ab, bcs[0]);
        OnceConcat(g, [c], Through(a, ab, tail));
        assert Apart(g, [c], Through(a, ab, tail)) <==>
               forall j | 0 <= j < |tail| && Strong(tail[j]) && tail[j].target == bcs[0].target ::
                   Exists(g, c.pair) by {
          ApartFromOne(g, a, ab, c, tail);
        }
      }
    }
  }

  lemma ApartFromOne(g: Graph, a: Id, ab: Assoc, c: Candidate, bcs: seq<Assoc>)
    requires c.pair.0 == a
    ensures Apart(g, [c], Through(a, ab, bcs)) <==>
            forall j | 0 <= j < |bcs| && Strong(bcs[j]) && bcs[j].target == c.pair.1 :: Exists(g, c.pair)
  {
    hide Strong;
    var ds := Through(a, ab, bcs);
    if Apart(g, [c], ds) {
      forall j | 0 <= j < |bcs| && Strong(bcs[j]) && bcs[j].target == c.pair.1
        ensures Exists(g, c.pair)
      {
        ThroughIff(a, ab, bcs, Inferred(a, ab, bcs[j]));
        assert c in [c] && Inferred(a, ab, bcs[j]).pair == c.pair;
      }
    }
    if forall j | 0 <= j < |bcs| && Strong(bcs[j]) && bcs[j].target == c.pair.1 :: Exists(g, c.pair) {
      forall d | d in ds && d.pair == c.pair
        ensures Exists(g, c.pair)
      {
        ThroughIff(a, ab, bcs, d);
      }
    }
  }

  lemma {:induction false} FromOnce(g: Graph, a: Id, abs: seq<Assoc>, snap: Snapshot)
    ensures EachPairOnce(g, From(a, abs, snap)) <==> OneLinkFrom(g, a, abs, snap)
  {
    hide Strong;
    if abs == [] {
      assert From(a, abs, snap) == [];
    } else {
      var head, tail := abs[0], abs[1..];
      FromOnce(g, a, tail, snap);
      if Strong(head) && head.target in snap {
        var bcs := snap[head.target];
        ThroughOnce(g, a, head, bcs);
        OnceConcat(g, Through(a, head, bcs), From(a, tail, snap));
        HeadApart(g, a, abs, snap);
        HeadLinks(g, a, abs, snap);
      } else {
        TailLinks(abs, snap);
        SkipHead(g, a, abs, snap);
      }
    }
  }

  lemma TailLinks(abs: seq<Assoc>, snap: Snapshot)
    requires abs != []
    ensures forall i, j :: LinkedFrom(abs[1..], snap, i, j) <==> i >= 0 && LinkedFrom(abs, snap, i + 1, j)
    ensures forall i, j | LinkedFrom(abs[1..], snap, i, j) :: EndOf(abs[1..], snap, i, j) == EndOf(abs, snap, i + 1, j)
  {
    hide Strong;
    assert forall i | 0 <= i < |abs| - 1 :: abs[1..][i] == abs[i + 1];
  }

  lemma SkipHead(g: Graph, a: Id, abs: seq<Assoc>, snap: Snapshot)
    requires abs != [] && !(Strong(abs[0]) && abs[0].target in snap)
    ensures OneLinkFrom(g, a, abs, snap) <==> OneLinkFrom(g, a, abs[1..], snap)
  {
    hide Strong, Exists;
    var tail := abs[1..];
    TailLinks(abs, snap);
    if OneLinkFrom(g, a, tail, snap) {
      forall i, j, i', j' |
        LinkedFrom(abs, snap, i, j) && LinkedFrom(abs, snap, i', j')
            && EndOf(abs, snap, i, j) == EndOf(abs, snap, i', j')
        ensures Exists(g, (a, EndOf(abs, snap, i, j))) || (i == i' && j == j')
      {
        assert LinkedFrom(tail, snap, i - 1, j) && LinkedFrom(tail, snap, i' - 1, j');
      }
    }
    if OneLinkFrom(g, a, abs, snap) {
      forall i, j, i', j' |
        LinkedFrom(tail, snap, i, j) && LinkedFrom(tail, snap, i', j')
            && EndOf(tail, snap, i, j) == EndOf(tail, snap, i', j')
        ensures Exists(g, (a, EndOf(tail, snap, i, j))) || (i == i' && j == j')
      {
        assert LinkedFrom(abs, snap, i + 1, j) && LinkedFrom(abs, snap, i' + 1, j');
      }
    }
  }

  /** The links through the first entry against those through the others. */
  ghost predicate HeadIsApart(g: Graph, a: Id, abs: seq<Assoc>, snap: Snapshot) {
    forall j, i', j' | LinkedFrom(abs, snap, 0, j) && LinkedFrom(abs, snap, i', j') && i' > 0
                       && EndOf(abs, snap, 0, j) == EndOf(abs, snap, i', j') ::
      Exists(g, (a, EndOf(abs, snap, 0, j)))
  }

  lemma HeadApart(g: Graph, a: Id, abs: seq<Assoc>, snap: Snapshot)
    requires abs != [] && Strong(abs[0]) && abs[0].target in snap
    ensures Apart(g, Through(a, abs[0], snap[abs[0].target]), From(a, abs[1..], snap)) <==> HeadIsApart(g, a, abs, snap)
  {
    hide Strong, Exists, InferredWeight, Through, From;
    var head, tail := abs[0], abs[1..];
    var x, y := Through(a, head, snap[head.target]), From(a, tail, snap);
    TailLinks(abs, snap);
    if Apart(g, x, y) {
      forall j, i', j' | LinkedFrom(abs, snap, 0, j) && LinkedFrom(abs, snap, i', j') && i' > 0
                         && EndOf(abs, snap, 0, j) == EndOf(abs, snap, i', j')
        ensures Exists(g, (a, EndOf(abs, snap, 0, j)))
      {
        var c, d := Inferred(a, head, snap[head.target][j]), Inferred(a, abs[i'], snap[abs[i'].target][j']);
        ThroughIff(a, head, snap[head.target], c);
        ThroughIff(a, abs[i'], snap[abs[i'].target], d);
        assert tail[i' - 1] == abs[i'];
        FromIff(a, tail, snap, d);
        assert c in x && d in y && c.pair == d.pair;
      }
    }
    if HeadIsApart(g, a, abs, snap) {
      forall c, d | c in x && d in y && c.pair == d.pair
        ensures Exists(g, c.pair)
      {
        ThroughIff(a, head, snap[head.target], c);
        var j :| 0 <= j < |snap[head.target]| && Strong(snap[head.target][j])
            && c == Inferred(a, head, snap[head.target][j]);
        FromIff(a, tail, snap, d);
        var i :| 0 <= i < |tail| && Strong(tail[i]) && tail[i].target in snap
            && d in Through(a, tail[i], snap[tail[i].target]);
        ThroughIff(a, tail[i], snap[tail[i].target], d);
        var j' :| 0 <= j' < |snap[tail[i].target]| && Strong(snap[tail[i].target][j'])
                  && d == Inferred(a, tail[i], snap[tail[i].target][j']);
        assert abs[i + 1] == tail[i];
        assert LinkedFrom(abs, snap, 0, j) && LinkedFrom(abs, snap, i + 1, j');
      }
    }
  }

  lemma HeadLinks(g: Graph, a: Id, abs: seq<Assoc>, snap: Snapshot)
    requires abs != [] && Strong(abs[0]) && abs[0].target in snap
    ensures var bcs := snap[abs[0].target];
            OneLinkFrom(g, a, abs, snap) <==>
            && OneLinkFrom(g, a, abs[1..], snap) && HeadIsApart(g, a, abs, snap)
            && forall j, j' | 0 <= j < j' < |bcs| && Strong(bcs[j]) && Strong(bcs[j'])
                && bcs[j].target == bcs[j'].target ::
                 Exists(g, (a, bcs[j].target))
  {
    hide Strong, Exists;
    var tail, bcs := abs[1..], snap[abs[0].target];
    TailLinks(abs, snap);
    if OneLinkFrom(g, a, abs, snap) {
      forall i, j, i', j' |
        LinkedFrom(tail, snap, i, j) && LinkedFrom(tail, snap, i', j')
            && EndOf(tail, snap, i, j) == EndOf(tail, snap, i', j')
        ensures Exists(g, (a, EndOf(tail, snap, i, j))) || (i == i' && j == j')
      {
        assert LinkedFrom(abs, snap, i + 1, j) && LinkedFrom(abs, snap, i' + 1, j');
      }
      forall j, j' | 0 <= j < j' < |bcs| && Strong(bcs[j]) && Strong(bcs[j']) && bcs[j].target == bcs[j'].target
        ensures Exists(g, (a, bcs[j].target))
      {
        assert LinkedFrom(abs, snap, 0, j) && LinkedFrom(abs, snap, 0, j');
      }
    } else {
      var i, j, i', j' :|
        LinkedFrom(abs, snap, i, j) && LinkedFrom(abs, snap, i', j')
            && EndOf(abs, snap, i, j) == EndOf(abs, snap, i', j')
        && !Exists(g, (a, EndOf(abs, snap, i, j))) && !(i == i' && j == j');
      if i > 0 && i' > 0 {
        assert LinkedFrom(tail, snap, i - 1, j) && LinkedFrom(tail, snap, i' - 1, j');
      } else if i == 0 && i' == 0 {
        assert bcs[j].target == bcs[j'].target && j != j';
      }
    }
  }

  /** Over the whole walk, for every order of the source nodes. */
  lemma {:induction false} CandidatesOnce(g: Graph, order: seq<Id>, snap: Snapshot)
    requires NoDuplicates(order)
    ensures EachPairOnce(g, Candidates(order, snap)) <==>
            forall a | a in order && a in snap :: OneLinkFrom(g, a, snap[a], snap)
  {
    hide OneLinkFrom, From;
    if order != [] {
      var a, tail := order[0], order[1..];
      assert order == [a] + tail;
      CandidatesOnce(g, tail, snap);
      if a in snap {
        FromOnce(g, a, snap[a], snap);
        OnceConcat(g, From(a, snap[a], snap), Candidates(tail, snap));
        DifferentSources(g, a, tail, snap);
      }
    }
  }

  lemma DifferentSources(g: Graph, a: Id, order: seq<Id>, snap: Snapshot)
    requires a in snap && a !in order
    ensures Apart(g, From(a, snap[a], snap), Candidates(order, snap))
  {
    forall c, d | c in From(a, snap[a], snap) && d in Candidates(order, snap)
      ensures c.pair != d.pair
    {
      FromSource(a, snap[a], snap, c);
      var b, i, j := CandidateSource(order, snap, d);
    }
  }

  lemma FromSource(a: Id, abs: seq<Assoc>, snap: Snapshot, c: Candidate)
    requires c in From(a, abs, snap)
    ensures c.pair.0 == a
  {
    FromIff(a, abs, snap, c);
    var i :| 0 <= i < |abs| && Strong(abs[i]) && abs[i].target in snap && c in Through(a, abs[i], snap[abs[i].target]);
    ThroughIff(a, abs[i], snap[abs[i].target], c);
  }

  lemma SnapshotOnce(g: Graph, order: seq<Id>, snap: Snapshot)
    requires NoDuplicates(order) && Elements(order) == snap.Keys
    ensures EachPairOnce(g, Candidates(order, snap)) <==> OneLinkEach(g, snap)
  {
    CandidatesOnce(g, order, snap);
    forall a | a in snap
      ensures a in order
    {
      assert a in Elements(order);
    }
    hide Strong, Exists;
    if OneLinkEach(g, snap) {
      forall a | a in snap
        ensures OneLinkFrom(g, a, snap[a], snap)
      {
        SourceLinks(snap, a);
      }
    }
    if forall a | a in order && a in snap :: OneLinkFrom(g, a, snap[a], snap) {
      forall a, i, j, i', j' |
        Linked(snap, a, i, j) && Linked(snap, a, i', j') && LinkTarget(snap, a, i, j) == LinkTarget(snap, a, i', j')
        ensures Exists(g, (a, LinkTarget(snap, a, i, j))) || (i == i' && j == j')
      {
        SourceLinks(snap, a);
        assert OneLinkFrom(g, a, snap[a], snap);
        assert LinkedFrom(snap[a], snap, i, j) && LinkedFrom(snap[a], snap, i', j');
      }
    }
  }

  lemma SourceLinks(snap: Snapshot, a: Id)
    requires a in snap
    ensures forall i, j :: Linked(snap, a, i, j) <==> LinkedFrom(snap[a], snap, i, j)
    ensures forall i, j | LinkedFrom(snap[a], snap, i, j) :: EndOf(snap[a], snap, i, j) == LinkTarget(snap, a, i, j)
  {
  }

  /** For every iteration order: the dry run predicts the real count exactly when no
      missing pair is reached along two links, or the cap is met anyway; otherwise it
      reports more. */
  lemma DryRunPredicts(g: Graph, order: seq<Id>, snap: Snapshot, max: int, eligible: set<Pair>)
    requires ValidGraph(g) && SnapshotOf(g, snap) && NoDuplicates(order) && Elements(order) == snap.Keys
    requires forall p :: p in eligible <==> Eligible(g, snap, p)
    ensures var dry := Infer(State(g, 0), Candidates(order, snap), max, true, NO_FAULTS).inferred;
            var wet := Infer(State(g, 0), Candidates(order, snap), max, false, NO_FAULTS).inferred;
            && dry >= wet
            && (dry == wet <==> OneLinkEach(g, snap) || |eligible| >= Max(0, max))
  {
    var cs := Candidates(order, snap);
    SnapshotCandidatesPositive(g, order, snap);
    SnapshotOnce(g, order, snap);
    forall p
      ensures p in NewPairs(g, cs) <==> p in eligible
    {
      NewPairsAreEligible(g, order, snap, p);
    }
    assert NewPairs(g, cs) == eligible;
    DryVersusReal(g, cs, max);
  }

  /** A diamond of four strong edges: the dry run reports two inferences, the real one
      makes one. */
  lemma DiamondCountsTwice(a: Id, b1: Id, b2: Id, c: Id, w: real, max: int)
    requires NoDuplicates([a, b1, b2, c]) && 0.7 <= w <= 1.0 && max >= 2
    ensures var g := map[(a, b1) := Edge(w, w), (a, b2) := Edge(w, w), (b1, c) := Edge(w, w), (b2, c) := Edge(w, w)];
            var snap := map[a := [Assoc(b1, w, w), Assoc(b2, w, w)], b1 := [Assoc(c, w, w)], b2 := [Assoc(c, w, w)]];
            var cs := Candidates([a, b1, b2], snap);
            && ValidGraph(g) && SnapshotOf(g, snap)
            && Infer(State(g, 0), cs, max, true, NO_FAULTS).inferred == 2
            && Infer(State(g, 0), cs, max, false, NO_FAULTS).inferred == 1
  {
    var ids := [a, b1, b2, c];
    assert ids[0] == a && ids[1] == b1 && ids[2] == b2 && ids[3] == c;
    var g := map[(a, b1) := Edge(w, w), (a, b2) := Edge(w, w), (b1, c) := Edge(w, w), (b2, c) := Edge(w, w)];
    var snap := map[a := [Assoc(b1, w, w), Assoc(b2, w, w)], b1 := [Assoc(c, w, w)], b2 := [Assoc(c, w, w)]];
    var d := Inferred(a, Assoc(b1, w, w), Assoc(c, w, w));
    DiamondCandidates(a, b1, b2, c, w);
    InferredBounds(a, Assoc(b1, w, w), Assoc(c, w, w), 1.0);
    hide Inferred;
    TwiceTheSame(g, d, max);
  }

  lemma DiamondCandidates(a: Id, b1: Id, b2: Id, c: Id, w: real)
    requires a != b1 && a != b2 && a != c && b1 != b2 && b1 != c && b2 != c && 0.7 <= w <= 1.0
    ensures var snap := map[a := [Assoc(b1, w, w), Assoc(b2, w, w)], b1 := [Assoc(c, w, w)], b2 := [Assoc(c, w, w)]];
            var d := Inferred(a, Assoc(b1, w, w), Assoc(c, w, w));
            Candidates([a, b1, b2], snap) == [d, d]
  {
    var e1, e2, f := Assoc(b1, w, w), Assoc(b2, w, w), Assoc(c, w, w);
    var snap := map[a := [e1, e2], b1 := [f], b2 := [f]];
    assert [f][1..] == [] && [e1, e2][1..] == [e2] && [e2][1..] == [];
    assert [a, b1, b2][1..] == [b1, b2] && [b1, b2][1..] == [b2] && [b2][1..] == [];
    assert Through(a, e1, [f]) == [Inferred(a, e1, f)];
    assert Through(a, e2, [f]) == [Inferred(a, e2, f)];
    assert From(a, [e2], snap) == [Inferred(a, e2, f)];
    assert From(a, [e1, e2], snap) == [Inferred(a, e1, f), Inferred(a, e2, f)];
    assert c !in snap && From(b1, [], snap) == [] && From(b2, [], snap) == [];
    assert From(b1, [f], snap) == [];
    assert From(b2, [f], snap) == [];
    assert Candidates([b2], snap) == [];
    assert Candidates([b1, b2], snap) == [];
  }

  lemma TwiceTheSame(g: Graph, d: Candidate, max: int)
    requires !Exists(g, d.pair) && d.weight > 0.0 && max >= 2
    ensures Infer(State(g, 0), [d, d], max, true, NO_FAULTS).inferred == 2
    ensures Infer(State(g, 0), [d, d], max, false, NO_FAULTS).inferred == 1
  {
    assert [d, d][1..] == [d] && [d][1..] == [];
    var dry := Apply(State(g, 0), d, true, NO_FAULTS);
    assert Infer(dry, [d], max, true, NO_FAULTS).inferred == 2;
    var wet := Apply(State(g, 0), d, false, NO_FAULTS);
    assert Infer(wet, [d], max, false, NO_FAULTS) == wet;
  }
}
