/** How clusters change when some of their members are retired: taking non-seeds away from
    the candidates takes them away from the clusters and changes nothing else. */
module DedupThinning {

  import opened Common
  import opened Similarity
  import opened Separation
  import opened Dedup
  import opened DedupRuns

  // ---------- Engrams up to tags and access count ----------

  /** What clustering, election and the guard look at. */
  function Core(e: Engram): Engram {
    e.(tags := [], accessCount := 0)
  }

  function Cores(c: seq<Engram>): seq<Engram> {
    seq(|c|, i requires 0 <= i < |c| => Core(c[i]))
  }

  /** The engrams not in `gone`, in order. */
  function Without(c: seq<Engram>, gone: set<Id>): seq<Engram> {
    if c == [] then []
    else (if c[0].id in gone then [] else [c[0]]) + Without(c[1..], gone)
  }

  // ---------- Clusters, singletons included ----------

  ghost function AllClusters(c: seq<Engram>, t: real): seq<seq<Engram>>
    requires t > 0.0
    decreases |c|
  {
    if c == [] then []
    else [[c[0]] + Similar(c[0], c[1..], t)] + AllClusters(Dissimilar(c[0], c[1..], t), t)
  }

  /** The ids a run without cap and without faults retires. */
  ghost function Doomed(cls: seq<seq<Engram>>): set<Id> {
    if cls == [] then {}
    else
      (match Elect(cls[0]) case None => {} case Some(rep) => Ids(Absorbable(rep, cls[0]))) + Doomed(cls[1..])
  }

  ghost predicate SeedSurvives(k: seq<Engram>) {
    k != [] && (Elect(k).None? || Elect(k) == Some(k[0]))
  }

  /** Every cluster elects its seed, if anyone. */
  ghost predicate SeedsSurvive(cls: seq<seq<Engram>>) {
    forall k | k in cls :: SeedSurvives(k)
  }

  lemma {:induction false} SingletonAbsorbsNothing(e: Engram)
    ensures match Elect([e]) case None => true case Some(rep) => Absorbable(rep, [e]) == []
  {
    assert [e][..0] == [];
    assert Elect([]) == None;
  }

  /** Clusters of one make no difference. */
  lemma {:induction false} DoomedInClusters(c: seq<Engram>, t: real)
    requires t > 0.0
    ensures Doomed(Clusters(c, t)) == Doomed(AllClusters(c, t))
    ensures TotalAbsorbable(Clusters(c, t)) == 0 ==> Doomed(Clusters(c, t)) == {}
    decreases |c|
  {
    if c != [] {
      var k, rest := [c[0]] + Similar(c[0], c[1..], t), Dissimilar(c[0], c[1..], t);
      DoomedInClusters(rest, t);
      assert AllClusters(c, t)[1..] == AllClusters(rest, t);
      if |k| > 1 {
        assert Clusters(c, t)[1..] == Clusters(rest, t) && Clusters(c, t)[0] == k;
      } else {
        assert k == [c[0]];
        SingletonAbsorbsNothing(c[0]);
      }
    }
  }

  // ---------- Thinning a list of candidates ----------

  lemma SplitCons(seed: Engram, e: Engram, c: seq<Engram>, t: real)
    requires t > 0.0
    ensures var joins := Meets(seed.embedding, e.embedding, t);
            && Similar(seed, [e] + c, t) == (if joins then [e] + Similar(seed, c, t) else Similar(seed, c, t))
            && Dissimilar(seed, [e] + c, t) == (if joins then Dissimilar(seed, c, t) else [e] + Dissimilar(seed, c, t))
  {
    hide Meets;
    assert ([e] + c)[1..] == c;
  }

  lemma NothingToThin(seed: Engram, gone: set<Id>, t: real)
    requires t > 0.0
    ensures Similar(seed, [], t) == [] && Dissimilar(seed, [], t) == [] && Without([], gone) == []
  {
  }

  lemma {:induction false} ThinSplit(seed: Engram, c: seq<Engram>, gone: set<Id>, t: real)
    requires t > 0.0
    ensures Similar(seed, Without(c, gone), t) == Without(Similar(seed, c, t), gone)
    ensures Dissimilar(seed, Without(c, gone), t) == Without(Dissimilar(seed, c, t), gone)
  {
    hide Meets, Similar, Dissimilar, Without;
    if c == [] {
      NothingToThin(seed, gone, t);
    } else {
      var e, tail := c[0], c[1..];
      assert c == [e] + tail;
      ThinSplit(seed, tail, gone, t);
      SplitCons(seed, e, tail, t);
      SplitCons(seed, e, Without(tail, gone), t);
      WithoutCons(e, tail, gone);
      WithoutCons(e, Similar(seed, tail, t), gone);
      WithoutCons(e, Dissimilar(seed, tail, t), gone);
    }
  }

  lemma WithoutCons(e: Engram, c: seq<Engram>, gone: set<Id>)
    ensures Without([e] + c, gone) == if e.id in gone then Without(c, gone) else [e] + Without(c, gone)
  {
    assert ([e] + c)[1..] == c;
  }

  function ThinAll(cls: seq<seq<Engram>>, gone: set<Id>): seq<seq<Engram>> {
    seq(|cls|, i requires 0 <= i < |cls| => Without(cls[i], gone))
  }

  ghost predicate KeepsSeeds(cls: seq<seq<Engram>>, gone: set<Id>) {
    forall k: seq<Engram> | k in cls :: k != [] && k[0].id !in gone
  }

  lemma AllClustersCons(e: Engram, c: seq<Engram>, t: real)
    requires t > 0.0
    ensures AllClusters([e] + c, t) == [[e] + Similar(e, c, t)] + AllClusters(Dissimilar(e, c, t), t)
  {
    assert ([e] + c)[1..] == c;
  }

  lemma ThinAllCons(k: seq<Engram>, cls: seq<seq<Engram>>, gone: set<Id>)
    ensures ThinAll([k] + cls, gone) == [Without(k, gone)] + ThinAll(cls, gone)
    ensures KeepsSeeds([k] + cls, gone) <==> k != [] && k[0].id !in gone && KeepsSeeds(cls, gone)
  {
    var all := [k] + cls;
    assert all[0] == k && all[0] in all;
    assert forall l | l in cls :: l in all;
  }

  /** Taking non-seeds away from the candidates takes them away from the clusters. */
  lemma {:induction false} ThinClusters(c: seq<Engram>, gone: set<Id>, t: real)
    requires t > 0.0 && KeepsSeeds(AllClusters(c, t), gone)
    ensures AllClusters(Without(c, gone), t) == ThinAll(AllClusters(c, t), gone)
    decreases |c|
  {
    if c != [] {
      var seed, tail := c[0], c[1..];
      var k, rest := [seed] + Similar(seed, tail, t), Dissimilar(seed, tail, t);
      assert c == [seed] + tail;
      hide Similar, Dissimilar, Without, KeepsSeeds, ThinAll, AllClusters;
      AllClustersCons(seed, tail, t);
      ThinAllCons(k, AllClusters(rest, t), gone);
      ThinSplit(seed, tail, gone, t);
      ThinClusters(rest, gone, t);
      WithoutCons(seed, tail, gone);
      WithoutCons(seed, Similar(seed, tail, t), gone);
      AllClustersCons(seed, Without(tail, gone), t);
    }
  }

  lemma {:induction false} WithoutMembers(c: seq<Engram>, gone: set<Id>)
    ensures forall e :: e in Without(c, gone) <==> e in c && e.id !in gone
  {
    if c != [] {
      WithoutMembers(c[1..], gone);
      assert c == [c[0]] + c[1..];
    }
  }

  /** A thinned cluster elects as before. */
  lemma ThinElect(k: seq<Engram>, gone: set<Id>)
    requires SeedSurvives(k) && k[0].id !in gone
    ensures Without(k, gone) != [] && Without(k, gone)[0] == k[0] && Elect(Without(k, gone)) == Elect(k)
  {
    var r := Without(k, gone);
    WithoutMembers(k, gone);
    ElectNone(k);
    ElectNone(r);
    if Elect(k).Some? {
      TopOfCluster(k);
      assert k[0] in r;
      var p := ElectIsFirstMaximum(r);
      assert r[p] in r;
    }
  }

  lemma TopOfCluster(k: seq<Engram>)
    requires k != [] && Elect(k) == Some(k[0])
    ensures forall e | e in k :: Score(e) <= Score(k[0])
  {
    var p := ElectIsFirstMaximum(k);
    forall e | e in k
      ensures Score(e) <= Score(k[0])
    {
      var j :| 0 <= j < |k| && k[j] == e;
    }
  }

  lemma ThinDoomedOne(k: seq<Engram>, gone: set<Id>, rep: Engram)
    ensures Ids(Absorbable(rep, Without(k, gone))) == Ids(Absorbable(rep, k)) - gone
  {
    hide Absorbs;
    AbsorbableMembers(rep, k);
    AbsorbableMembers(rep, Without(k, gone));
    WithoutMembers(k, gone);
    forall id | id in Ids(Absorbable(rep, k)) - gone
      ensures id in Ids(Absorbable(rep, Without(k, gone)))
    {
      var e :| e in Absorbable(rep, k) && e.id == id;
      assert e in Absorbable(rep, Without(k, gone));
    }
  }

  lemma {:induction false} ThinDoomed(cls: seq<seq<Engram>>, gone: set<Id>)
    requires SeedsSurvive(cls) && KeepsSeeds(cls, gone)
    ensures Doomed(ThinAll(cls, gone)) == Doomed(cls) - gone && SeedsSurvive(ThinAll(cls, gone))
  {
    if cls != [] {
      var k, thin := cls[0], ThinAll(cls, gone);
      assert k in cls && forall l | l in cls[1..] :: l in cls;
      assert thin[1..] == ThinAll(cls[1..], gone) && thin[0] == Without(k, gone);
      ThinDoomed(cls[1..], gone);
      ThinElect(k, gone);
      if Elect(k).Some? {
        ThinDoomedOne(k, gone, k[0]);
      }
      hide Elect, Absorbable, Without, ThinAll;
      forall l | l in thin
        ensures SeedSurvives(l)
      {
        assert l == thin[0] || l in thin[1..];
      }
    }
  }

  // ---------- Tags and access counts play no part ----------

  function CoresAll(cls: seq<seq<Engram>>): seq<seq<Engram>> {
    seq(|cls|, i requires 0 <= i < |cls| => Cores(cls[i]))
  }

  function CoreOf(e: Option<Engram>): Option<Engram> {
    if e.Some? then Some(Core(e.value)) else None
  }

  lemma CoresCons(e: Engram, c: seq<Engram>)
    ensures Cores([e] + c) == [Core(e)] + Cores(c)
  {
  }

  lemma {:induction false} CoresSplit(seed: Engram, c: seq<Engram>, t: real)
    requires t > 0.0
    ensures Similar(Core(seed), Cores(c), t) == Cores(Similar(seed, c, t))
    ensures Dissimilar(Core(seed), Cores(c), t) == Cores(Dissimilar(seed, c, t))
  {
    hide Meets;
    if c != [] {
      CoresSplit(seed, c[1..], t);
      assert Cores(c)[1..] == Cores(c[1..]) && Cores(c)[0] == Core(c[0]);
      CoresCons(c[0], Similar(seed, c[1..], t));
      CoresCons(c[0], Dissimilar(seed, c[1..], t));
    }
  }

  lemma {:induction false} CoresClusters(c: seq<Engram>, t: real)
    requires t > 0.0
    ensures AllClusters(Cores(c), t) == CoresAll(AllClusters(c, t))
    decreases |c|
  {
    hide Meets;
    if c != [] {
      var seed, tail := c[0], c[1..];
      assert Cores(c)[1..] == Cores(tail) && Cores(c)[0] == Core(seed);
      CoresSplit(seed, tail, t);
      CoresCons(seed, Similar(seed, tail, t));
      CoresClusters(Dissimilar(seed, tail, t), t);
      var k, rest := [seed] + Similar(seed, tail, t), AllClusters(Dissimilar(seed, tail, t), t);
      assert CoresAll([k] + rest) == [Cores(k)] + CoresAll(rest);
    }
  }

  lemma {:induction false} CoresElect(k: seq<Engram>)
    ensures Elect(Cores(k)) == CoreOf(Elect(k))
  {
    assert forall e :: Score(Core(e)) == Score(e);
    hide Score;
    if k != [] {
      CoresElect(k[..|k| - 1]);
      assert Cores(k)[..|k| - 1] == Cores(k[..|k| - 1]);
    }
  }

  lemma {:induction false} CoresAbsorb(rep: Engram, k: seq<Engram>)
    ensures Ids(Absorbable(Core(rep), Cores(k))) == Ids(Absorbable(rep, k))
  {
    hide SignatureOf;
    if k != [] {
      var init, last := k[..|k| - 1], k[|k| - 1];
      CoresAbsorb(rep, init);
      assert Cores(k)[..|k| - 1] == Cores(init);
      assert Absorbs(Core(rep), Core(last)) <==> Absorbs(rep, last);
      IdsOneMore(Absorbable(rep, init), last);
      IdsOneMore(Absorbable(Core(rep), Cores(init)), Core(last));
    }
  }

  lemma IdsOneMore(c: seq<Engram>, e: Engram)
    ensures Ids(c + [e]) == Ids(c) + {e.id}
  {
    IdsSnoc(c + [e]);
    assert (c + [e])[..|c + [e]| - 1] == c;
  }

  lemma {:induction false} CoresDoomed(cls: seq<seq<Engram>>)
    ensures Doomed(CoresAll(cls)) == Doomed(cls)
  {
    if cls != [] {
      CoresDoomed(cls[1..]);
      assert CoresAll(cls)[1..] == CoresAll(cls[1..]) && CoresAll(cls)[0] == Cores(cls[0]);
      CoresElect(cls[0]);
      if Elect(cls[0]).Some? {
        CoresAbsorb(Elect(cls[0]).value, cls[0]);
      }
    }
  }

  /** A cluster elects its seed exactly when its core does: election is by position. */
  lemma CoresSeeds(cls: seq<seq<Engram>>)
    requires forall k | k in cls :: DistinctIds(k)
    ensures SeedsSurvive(CoresAll(cls)) <==> SeedsSurvive(cls)
  {
    var cores := CoresAll(cls);
    forall i | 0 <= i < |cls|
      ensures SeedSurvives(cores[i]) <==> SeedSurvives(cls[i])
    {
      assert cls[i] in cls;
      CoresSeed(cls[i]);
    }
    if SeedsSurvive(cores) {
      forall k | k in cls
        ensures SeedSurvives(k)
      {
        var i :| 0 <= i < |cls| && cls[i] == k;
        assert cores[i] in cores;
      }
    }
    if SeedsSurvive(cls) {
      forall k | k in cores
        ensures SeedSurvives(k)
      {
        var i :| 0 <= i < |cores| && cores[i] == k;
        assert cls[i] in cls;
      }
    }
  }

  lemma CoresSeed(k: seq<Engram>)
    requires DistinctIds(k)
    ensures SeedSurvives(Cores(k)) <==> SeedSurvives(k)
  {
    CoresElect(k);
    if k != [] && Elect(k).Some? && Core(Elect(k).value) == Core(k[0]) {
      assert Elect(k).value.id == k[0].id;
      var i :| 0 <= i < |k| && k[i] == Elect(k).value;
      assert i == 0;
    }
  }
}
