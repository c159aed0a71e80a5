/** What the per-run cap defers: when capped runs end where one uncapped run does, and an
    input on which they do not. */
module DedupDeferral {

  import opened Common
  import opened Similarity
  import opened Separation
  import opened Dedup
  import opened DedupRuns
  import opened DedupThinning

  // ---------- What a run does, up to tags and access counts ----------

  /** `gone` were retired; nothing else changed but tags and access counts. */
  ghost predicate Thins(m: Engrams, m': Engrams, gone: set<Id>) {
    && m'.Keys == m.Keys && gone <= m.Keys
    && (forall id | id in gone :: Live(m[id]) && !Live(m'[id]))
    && (forall id | id in m && id !in gone :: Core(m'[id]) == Core(m[id]))
  }

  lemma ThinsNothing(m: Engrams)
    ensures Thins(m, m, {})
  {
  }

  lemma ThinsFurther(m: Engrams, p: Engrams, r: Engrams, gone: set<Id>, more: set<Id>)
    requires Thins(m, p, gone) && Thins(p, r, more)
    ensures Thins(m, r, gone + more)
  {
    forall id | id in m && id !in more
      ensures Live(r[id]) <==> Live(p[id])
    {
      assert Core(r[id]).state == Core(p[id]).state;
    }
    forall id | id in m && id !in gone
      ensures Live(p[id]) <==> Live(m[id])
    {
      assert Core(p[id]).state == Core(m[id]).state;
    }
  }

  lemma ThinsLive(m: Engrams, m': Engrams, gone: set<Id>)
    requires Thins(m, m', gone)
    ensures LiveIds(m') == LiveIds(m) - gone
  {
    forall id | id in m && id !in gone
      ensures Live(m'[id]) <==> Live(m[id])
    {
      assert Core(m'[id]).state == Core(m[id]).state;
    }
  }

  lemma MergesThins(m: Engrams, m': Engrams, rep: Engram, gone: set<Id>)
    requires Merges(m, m', rep, gone)
    ensures Thins(m, m', gone)
  {
    hide SignatureOf;
  }

  ghost function DoomedOne(k: seq<Engram>): set<Id> {
    match Elect(k) case None => {} case Some(rep) => Ids(Absorbable(rep, k))
  }

  ghost function AbsorbableCount(k: seq<Engram>): nat {
    match Elect(k) case None => 0 case Some(rep) => |Absorbable(rep, k)|
  }

  /** The members a step takes are doomed, and all of the doomed if the cap allows. */
  lemma MembersAreDoomed(k: seq<Engram>, cfg: Config, merged: nat)
    ensures Ids(MembersOf(k, cfg, merged)) <= DoomedOne(k) && |MembersOf(k, cfg, merged)| <= AbsorbableCount(k)
    ensures merged + AbsorbableCount(k) <= cfg.maxDedup ==>
              Ids(MembersOf(k, cfg, merged)) == DoomedOne(k) && |MembersOf(k, cfg, merged)| == AbsorbableCount(k)
  {
    if Elect(k).Some? {
      var all := Absorbable(Elect(k).value, k);
      var members := Trimmed(all, cfg.maxDedup, merged);
      assert forall e | e in members :: e in all;
    }
  }

  lemma StepThinsMembers(o: Outcome, k: seq<Engram>, cfg: Config, faults: Faults)
    requires Current(o.engrams, k) && DistinctIds(k) && !cfg.dryRun && faults.archive == {}
    requires Elect(k).Some? && MembersOf(k, cfg, o.merged) != []
    ensures Thins(o.engrams, StepCluster(o, k, cfg, faults).engrams, Ids(MembersOf(k, cfg, o.merged)))
  {
    hide StepCluster, MembersOf, Thins, Merges, Elect, Ids, DistinctIds;
    StepMerges(o, k, cfg, faults);
    var gone := Ids(MembersOf(k, cfg, o.merged));
    assert gone - faults.archive == gone;
    MergesThins(o.engrams, StepCluster(o, k, cfg, faults).engrams, Elect(k).value, gone);
  }

  lemma StepIdles(o: Outcome, k: seq<Engram>, cfg: Config, faults: Faults)
    requires Current(o.engrams, k) && (Elect(k).None? || MembersOf(k, cfg, o.merged) == [])
    ensures StepCluster(o, k, cfg, faults).engrams == o.engrams && Ids(MembersOf(k, cfg, o.merged)) == {}
  {
  }

  /** One cluster retires some of its absorbable members, all of them if the cap allows. */
  lemma StepThins(o: Outcome, k: seq<Engram>, cfg: Config, faults: Faults) returns (gone: set<Id>)
    requires Current(o.engrams, k) && DistinctIds(k) && !cfg.dryRun && faults.archive == {}
    ensures gone <= DoomedOne(k) && Thins(o.engrams, StepCluster(o, k, cfg, faults).engrams, gone)
    ensures o.merged + AbsorbableCount(k) <= cfg.maxDedup ==>
              gone == DoomedOne(k) && StepCluster(o, k, cfg, faults).merged == o.merged + AbsorbableCount(k)
  {
    hide StepCluster, MembersOf, Thins, Elect, DoomedOne, AbsorbableCount, Ids, DistinctIds;
    gone := Ids(MembersOf(k, cfg, o.merged));
    StepMergeCount(o, k, cfg, faults);
    MembersAreDoomed(k, cfg, o.merged);
    if Elect(k).Some? && MembersOf(k, cfg, o.merged) != [] {
      StepThinsMembers(o, k, cfg, faults);
    } else {
      StepIdles(o, k, cfg, faults);
      ThinsNothing(o.engrams);
    }
  }

  lemma DoomedCons(cls: seq<seq<Engram>>)
    requires cls != []
    ensures Doomed(cls) == DoomedOne(cls[0]) + Doomed(cls[1..])
    ensures TotalAbsorbable(cls) == AbsorbableCount(cls[0]) + TotalAbsorbable(cls[1..])
  {
  }

  lemma {:induction false} NothingDoomed(cls: seq<seq<Engram>>)
    requires TotalAbsorbable(cls) == 0
    ensures Doomed(cls) == {}
  {
    if cls != [] {
      NothingDoomed(cls[1..]);
      assert Ids([]) == {};
    }
  }

  lemma {:induction false} StepAllThins(o: Outcome, cls: seq<seq<Engram>>, cfg: Config, faults: Faults)
    returns (gone: set<Id>)
    requires Ready(o.engrams, cls) && !cfg.dryRun && faults.archive == {}
    ensures gone <= Doomed(cls) && Thins(o.engrams, StepAll(o, cls, cfg, faults).engrams, gone)
    ensures o.merged + TotalAbsorbable(cls) <= cfg.maxDedup ==> gone == Doomed(cls)
    decreases |cls|
  {
    if cls == [] || o.merged >= cfg.maxDedup {
      gone := {};
      ThinsNothing(o.engrams);
      if TotalAbsorbable(cls) == 0 {
        NothingDoomed(cls);
      }
    } else {
      assert Current(o.engrams, cls[0]);
      var r := StepCluster(o, cls[0], cfg, faults);
      var first := StepThins(o, cls[0], cfg, faults);
      StepOutside(o, cls[0], cfg, faults);
      StepReady(o, r, cls);
      var more := StepAllThins(r, cls[1..], cfg, faults);
      hide StepCluster, Doomed, DoomedOne, Thins, TotalAbsorbable;
      ThinsFurther(o.engrams, r.engrams, StepAll(r, cls[1..], cfg, faults).engrams, first, more);
      DoomedCons(cls);
      gone := first + more;
    }
  }

  // ---------- The candidates of the next run ----------

  lemma {:induction false} ThinCandidates(order: seq<Id>, m: Engrams, m': Engrams, gone: set<Id>)
    requires Elements(order) <= m.Keys && Thins(m, m', gone) && forall id | id in m :: m[id].id == id
    ensures Cores(Candidates(order, m')) == Without(Cores(Candidates(order, m)), gone)
  {
    if order == [] {
      assert Cores([]) == [];
    } else {
      var id, tail := order[0], order[1..];
      assert id in Elements(order) && Elements(tail) <= Elements(order);
      ThinCandidates(tail, m, m', gone);
      var e, e', c, c' := m[id], m'[id], Candidates(tail, m), Candidates(tail, m');
      CoresCons(e, c);
      CoresCons(e', c');
      WithoutCons(Core(e), Cores(c), gone);
      if id !in gone {
        assert Core(e').state == Core(e).state && Core(e').embedding == Core(e).embedding;
      }
    }
  }

  /** The first cluster and what it leaves share no id. */
  lemma ClusterParts(c: seq<Engram>, t: real) returns (k: seq<Engram>, rest: seq<Engram>)
    requires t > 0.0 && DistinctIds(c) && c != []
    ensures k != [] && k[0] == c[0] && |rest| < |c| && AllClusters(c, t) == [k] + AllClusters(rest, t)
    ensures DistinctIds(k) && DistinctIds(rest) && Ids(k) <= Ids(c) && Ids(rest) <= Ids(c) && Ids(k) !! Ids(rest)
  {
    var seed, tail := c[0], c[1..];
    k, rest := [seed] + Similar(seed, tail, t), Dissimilar(seed, tail, t);
    SplitFacts(seed, tail, t);
    SplitDistinct(seed, tail, t);
    SeedApart(c, t);
    hide Similar, Dissimilar, Meets, DistinctIds;
    assert forall e | e in k :: e in c;
    assert forall e | e in rest :: e in c;
  }

  lemma DoomedOneWithin(k: seq<Engram>)
    ensures DoomedOne(k) <= Ids(k)
    ensures SeedSurvives(k) ==> k[0].id !in DoomedOne(k)
  {
    if Elect(k).Some? {
      AbsorbableMembers(Elect(k).value, k);
    }
  }

  lemma DoomedFirst(k: seq<Engram>, cls: seq<seq<Engram>>)
    ensures Doomed([k] + cls) == DoomedOne(k) + Doomed(cls)
  {
    DoomedCons([k] + cls);
    assert ([k] + cls)[1..] == cls;
  }

  ghost predicate Within(cls: seq<seq<Engram>>, ids: set<Id>) {
    forall k: seq<Engram> | k in cls :: k != [] && DistinctIds(k) && Ids(k) <= ids
  }

  lemma {:induction false} AllClustersWithin(c: seq<Engram>, t: real)
    requires t > 0.0 && DistinctIds(c)
    ensures Within(AllClusters(c, t), Ids(c)) && Doomed(AllClusters(c, t)) <= Ids(c)
    decreases |c|
  {
    if c != [] {
      hide AllClusters, Doomed, DoomedOne, DistinctIds, Ids;
      var k, rest := ClusterParts(c, t);
      AllClustersWithin(rest, t);
      DoomedFirst(k, AllClusters(rest, t));
      DoomedOneWithin(k);
    }
  }

  /** No seed is ever doomed when seeds survive. */
  lemma {:induction false} SeedsAreKept(c: seq<Engram>, t: real)
    requires t > 0.0 && DistinctIds(c) && SeedsSurvive(AllClusters(c, t))
    ensures KeepsSeeds(AllClusters(c, t), Doomed(AllClusters(c, t)))
    decreases |c|
  {
    if c != [] {
      var k, rest := ClusterParts(c, t);
      var others := AllClusters(rest, t);
      var all := [k] + others;
      hide AllClusters, Doomed, DoomedOne, SeedSurvives, DistinctIds;
      assert k in all && forall l | l in others :: l in all;
      SeedsAreKept(rest, t);
      AllClustersWithin(rest, t);
      DoomedFirst(k, others);
      DoomedOneWithin(k);
      forall l: seq<Engram> | l in all
        ensures l != [] && l[0].id !in Doomed(all)
      {
        if l == k {
          assert k[0].id in Ids(k);
        } else {
          assert l in others && l[0].id in Ids(l);
        }
      }
    }
  }

  // ---------- What the vault comes down to ----------

  ghost function ClustersOf(order: seq<Id>, m: Engrams, t: real): seq<seq<Engram>>
    requires WellFormed(order, m) && t > 0.0
  {
    AllClusters(Candidates(order, m), t)
  }

  /** The engrams that outlive an uncapped run. */
  ghost function Fate(order: seq<Id>, m: Engrams, t: real): set<Id>
    requires WellFormed(order, m) && t > 0.0
  {
    LiveIds(m) - Doomed(ClustersOf(order, m, t))
  }

  /** Retiring doomed engrams only leaves the rest doomed and every seed in place. */
  lemma ThinFate(order: seq<Id>, m: Engrams, m': Engrams, gone: set<Id>, t: real)
    requires WellFormed(order, m) && WellFormed(order, m') && t > 0.0 && Thins(m, m', gone)
    requires SeedsSurvive(ClustersOf(order, m, t)) && gone <= Doomed(ClustersOf(order, m, t))
    ensures SeedsSurvive(ClustersOf(order, m', t)) && Fate(order, m', t) == Fate(order, m, t)
  {
    var c, c' := Candidates(order, m), Candidates(order, m');
    var cls, cls' := AllClusters(c, t), AllClusters(c', t);
    CandidatesFacts(order, m);
    CandidatesFacts(order, m');
    AllClustersWithin(c, t);
    AllClustersWithin(c', t);
    SeedsAreKept(c, t);
    ThinsLive(m, m', gone);
    ThinCandidates(order, m, m', gone);
    CoresClusters(c, t);
    CoresClusters(c', t);
    CoresSeeds(cls);
    CoresSeeds(cls');
    CoresDoomed(cls);
    CoresDoomed(cls');
    CoresKeepSeeds(cls, gone);
    hide AllClusters, Doomed, SeedsSurvive, KeepsSeeds, CoresAll, Cores, Without, Candidates, DistinctIds;
    ThinClusters(Cores(c), gone, t);
    ThinDoomed(CoresAll(cls), gone);
  }

  lemma CoresKeepSeeds(cls: seq<seq<Engram>>, gone: set<Id>)
    requires KeepsSeeds(cls, Doomed(cls)) && gone <= Doomed(cls)
    ensures KeepsSeeds(CoresAll(cls), gone)
  {
    hide Doomed;
    var cores := CoresAll(cls);
    forall k: seq<Engram> | k in cores
      ensures k != [] && k[0].id !in gone
    {
      var i :| 0 <= i < |cores| && cores[i] == k;
      assert cls[i] in cls;
    }
  }

  lemma RunKeepsFate(order: seq<Id>, m: Engrams, p: Pass)
    requires WellFormed(order, m) && !p.cfg.dryRun && p.faults.archive == {}
    requires SeedsSurvive(ClustersOf(order, m, p.cfg.Threshold()))
    ensures var t, m' := p.cfg.Threshold(), Run(order, m, p.cfg, p.faults).engrams;
            && WellFormed(order, m') && SeedsSurvive(ClustersOf(order, m', t))
            && Fate(order, m', t) == Fate(order, m, t)
            && (TotalAbsorbable(RunClusters(order, m, p.cfg)) <= p.cfg.maxDedup ==> LiveIds(m') == Fate(order, m, t))
  {
    var t, cls := p.cfg.Threshold(), RunClusters(order, m, p.cfg);
    RunWellFormed(order, m, p);
    DoomedInClusters(Candidates(order, m), t);
    var gone := StepAllThins(Outcome(m, 0, 0, 0), cls, p.cfg, p.faults);
    var m' := Run(order, m, p.cfg, p.faults).engrams;
    hide Thins, Doomed, StepAll, WellFormed, AllClusters, Clusters, Candidates;
    ThinFate(order, m, m', gone, t);
    ThinsLive(m, m', gone);
  }

  lemma {:induction false} RunsKeepFate(order: seq<Id>, m: Engrams, passes: seq<Pass>, t: real)
    requires WellFormed(order, m) && t > 0.0 && SeedsSurvive(ClustersOf(order, m, t))
    requires forall p | p in passes :: Effective(p, t)
    ensures var m' := Runs(order, m, passes);
            SeedsSurvive(ClustersOf(order, m', t)) && Fate(order, m', t) == Fate(order, m, t)
  {
    hide SeedsSurvive, ClustersOf, Fate, Run, Runs;
    if passes == [] {
      NoRuns(order, m);
    } else {
      var init, p := passes[..|passes| - 1], passes[|passes| - 1];
      assert Effective(p, t);
      RunsKeepFate(order, m, init, t);
      RunKeepsFate(order, Runs(order, m, init), p);
      RunsSnoc(order, m, passes);
    }
  }

  /** When every cluster elects its seed the cap only defers: as many capped runs as there
      are live engrams leave the same engrams live as one uncapped run. */
  lemma CapOnlyDefers(order: seq<Id>, m: Engrams, passes: seq<Pass>, uncapped: Pass)
    requires WellFormed(order, m) && SeedsSurvive(ClustersOf(order, m, uncapped.cfg.Threshold()))
    requires forall p | p in passes :: Effective(p, uncapped.cfg.Threshold())
    requires |passes| >= |LiveIds(m)|
    requires Effective(uncapped, uncapped.cfg.Threshold())
    requires TotalAbsorbable(RunClusters(order, m, uncapped.cfg)) <= uncapped.cfg.maxDedup
    ensures LiveIds(Runs(order, m, passes)) == LiveIds(Run(order, m, uncapped.cfg, uncapped.faults).engrams)
  {
    var t, m' := uncapped.cfg.Threshold(), Runs(order, m, passes);
    RunsKeepFate(order, m, passes, t);
    RunsReachFixpoint(order, m, passes, uncapped);
    DoomedInClusters(Candidates(order, m'), t);
    NothingDoomed(RunClusters(order, m', uncapped.cfg));
    RunKeepsFate(order, m, uncapped);
  }

  // ---------- An input on which the cap does not only defer ----------

  /** A seed similar to two engrams that are not similar to each other, one of which is
      elected. */
  ghost predicate Bridge(s: Engram, r: Engram, d: Engram, t: real)
    requires t > 0.0
  {
    && s.id != r.id && s.id != d.id && r.id != d.id && Live(s) && Live(r) && Live(d)
    && Meets(s.embedding, r.embedding, t) && Meets(s.embedding, d.embedding, t) && !Meets(r.embedding, d.embedding, t)
    && Sig(s) == Sig(r) == Sig(d) && Score(r) > -1.0 && Score(r) > Score(s) && Score(r) > Score(d)
  }

  function BridgeVault(s: Engram, r: Engram, d: Engram): Engrams {
    map[s.id := s, r.id := r, d.id := d]
  }

  lemma BridgeCandidates(s: Engram, r: Engram, d: Engram, t: real)
    requires t > 0.0 && Bridge(s, r, d, t)
    ensures var order, m := [s.id, r.id, d.id], BridgeVault(s, r, d);
            WellFormed(order, m) && Candidates(order, m) == [s, r, d]
  {
    hide SignatureOf, Score, Dot;
    var order, m := [s.id, r.id, d.id], BridgeVault(s, r, d);
    assert Elements(order) == m.Keys;
    assert order[1..] == [r.id, d.id] && [r.id, d.id][1..] == [d.id] && [d.id][1..] == [];
    assert s.embedding != [] && r.embedding != [] && d.embedding != [];
    assert Candidates([d.id], m) == [d];
    assert Candidates([r.id, d.id], m) == [r, d];
  }

  lemma BridgeCluster(s: Engram, r: Engram, d: Engram, t: real)
    requires t > 0.0 && Bridge(s, r, d, t)
    ensures Clusters([s, r, d], t) == [[s, r, d]]
  {
    hide Meets, SignatureOf, Score;
    NothingToThin(s, {}, t);
    SplitCons(s, d, [], t);
    SplitCons(s, r, [d], t);
    assert [r] + [d] == [r, d] && [d] + [] == [d];
    assert [s, r, d][1..] == [r, d] && [s] + [r, d] == [s, r, d];
  }

  lemma BridgeMembers(s: Engram, r: Engram, d: Engram, cfg: Config)
    requires Bridge(s, r, d, cfg.Threshold()) && 1 <= cfg.maxDedup <= 2
    ensures Elect([s, r, d]) == Some(r) && MembersOf([s, r, d], cfg, 0) == if cfg.maxDedup == 1 then [s] else [s, d]
  {
    hide SignatureOf, Score, Meets;
    assert [s, r, d][..2] == [s, r] && [s, r][..1] == [s] && [s][..0] == [];
    assert Elect([]) == None;
    assert Elect([s, r]) == Some(r);
    assert Absorbable(r, []) == [];
    assert Absorbable(r, [s]) == [s];
    assert Absorbable(r, [s, r]) == [s];
    assert Absorbable(r, [s, r, d]) == [s, d];
  }

  /** A run over a single cluster is one step. */
  lemma OneClusterRun(order: seq<Id>, m: Engrams, cfg: Config, k: seq<Engram>)
    requires WellFormed(order, m) && RunClusters(order, m, cfg) == [k] && cfg.maxDedup >= 1
    ensures Current(m, k) && Run(order, m, cfg, NO_FAULTS) == StepCluster(Outcome(m, 0, 0, 0), k, cfg, NO_FAULTS)
  {
    var cls, o := [k], Outcome(m, 0, 0, 0);
    assert cls[0] == k && k in cls && cls[1..] == [];
    hide StepCluster, WellFormed, RunClusters, Current;
    StepOutside(o, k, cfg, NO_FAULTS);
    StepReady(o, StepCluster(o, k, cfg, NO_FAULTS), cls);
    assert StepAll(StepCluster(o, k, cfg, NO_FAULTS), [], cfg, NO_FAULTS) == StepCluster(o, k, cfg, NO_FAULTS);
  }

  lemma BridgeIds(s: Engram, r: Engram, d: Engram)
    requires s.id != r.id && s.id != d.id && r.id != d.id
    ensures DistinctIds([s, r, d]) && Ids([s]) == {s.id} && Ids([s, d]) == {s.id, d.id}
  {
    assert s in [s] && s in [s, d] && d in [s, d];
  }

  lemma BridgeRun(s: Engram, r: Engram, d: Engram, cfg: Config)
    requires Bridge(s, r, d, cfg.Threshold()) && 1 <= cfg.maxDedup <= 2 && !cfg.dryRun
    ensures var order, m := [s.id, r.id, d.id], BridgeVault(s, r, d);
            && WellFormed(order, m)
            && Thins(m, Run(order, m, cfg, NO_FAULTS).engrams, if cfg.maxDedup == 1 then {s.id} else {s.id, d.id})
  {
    var order, m, k := [s.id, r.id, d.id], BridgeVault(s, r, d), [s, r, d];
    BridgeClusters(s, r, d, cfg);
    BridgeMembers(s, r, d, cfg);
    BridgeIds(s, r, d);
    hide Bridge, Elect, MembersOf, RunClusters, Run, Thins, Ids, DistinctIds, StepCluster, BridgeVault, WellFormed;
    OneClusterRun(order, m, cfg, k);
    StepThinsMembers(Outcome(m, 0, 0, 0), k, cfg, NO_FAULTS);
  }

  lemma BridgeClusters(s: Engram, r: Engram, d: Engram, cfg: Config)
    requires Bridge(s, r, d, cfg.Threshold())
    ensures WellFormed([s.id, r.id, d.id], BridgeVault(s, r, d))
    ensures RunClusters([s.id, r.id, d.id], BridgeVault(s, r, d), cfg) == [[s, r, d]]
  {
    BridgeCandidates(s, r, d, cfg.Threshold());
    BridgeCluster(s, r, d, cfg.Threshold());
    hide Bridge, Clusters, Candidates, BridgeVault;
  }

  lemma PairOfCores(c: seq<Engram>, x: Engram, y: Engram, t: real)
    requires t > 0.0 && Cores(c) == [Core(x), Core(y)] && !Meets(x.embedding, y.embedding, t)
    ensures Clusters(c, t) == []
  {
    hide Meets;
    assert |c| == |Cores(c)| == 2 && Cores(c)[0] == Core(c[0]) && Cores(c)[1] == Core(c[1]);
    assert c[0].embedding == Core(c[0]).embedding == x.embedding
        && c[1].embedding == Core(c[1]).embedding == y.embedding;
    NothingToThin(c[0], {}, t);
    SplitCons(c[0], c[1], [], t);
    NothingToThin(c[1], {}, t);
    assert [c[1]] + [] == [c[1]] && c[1..] == [c[1]] && [c[1]][1..] == [];
    assert Clusters([], t) == [];
    assert Clusters([c[1]], t) == [];
  }

  /** What a settled vault stays at, whatever the caps and faults of further runs. */
  lemma {:induction false} SettledStays(order: seq<Id>, m: Engrams, cfg: Config, passes: seq<Pass>)
    requires WellFormed(order, m) && Settled(order, m, cfg)
    requires forall p | p in passes :: p.cfg.Threshold() == cfg.Threshold()
    ensures Runs(order, m, passes) == m
  {
    hide Run, Runs, Settled;
    if passes == [] {
      NoRuns(order, m);
    } else {
      var p := passes[|passes| - 1];
      assert p in passes;
      SettledStays(order, m, cfg, passes[..|passes| - 1]);
      SettledByThreshold(order, m, cfg, p.cfg);
      SettledIsFixpoint(order, m, p.cfg, p.faults);
      RunsSnoc(order, m, passes);
    }
  }

  /** On a bridge a cap of one retires the seed first; the other duplicate then stays live
      for ever, although a single run with a cap of two retires it. */
  lemma DeferralLosesMerge(s: Engram, r: Engram, d: Engram, cfg: Config, passes: seq<Pass>)
    requires Bridge(s, r, d, cfg.Threshold()) && cfg.maxDedup == 1 && !cfg.dryRun
    requires forall p | p in passes :: p.cfg.Threshold() == cfg.Threshold()
    ensures var order, m := [s.id, r.id, d.id], BridgeVault(s, r, d);
            && WellFormed(order, m) && WellFormed(order, Run(order, m, cfg, NO_FAULTS).engrams)
            && d.id in LiveIds(Runs(order, Run(order, m, cfg, NO_FAULTS).engrams, passes))
            && d.id !in LiveIds(Run(order, m, cfg.(maxDedup := 2), NO_FAULTS).engrams)
  {
    var order, m, t := [s.id, r.id, d.id], BridgeVault(s, r, d), cfg.Threshold();
    var more := cfg.(maxDedup := 2);
    assert more.Threshold() == t;
    BridgeRun(s, r, d, cfg);
    BridgeRun(s, r, d, more);
    BridgeCandidates(s, r, d, t);
    RunWellFormed(order, m, Pass(cfg, NO_FAULTS));
    var m1, m2 := Run(order, m, cfg, NO_FAULTS).engrams, Run(order, m, more, NO_FAULTS).engrams;
    ThinsLive(m, m1, {s.id});
    ThinsLive(m, m2, {s.id, d.id});
    ThinCandidates(order, m, m1, {s.id});
    BridgeRest(s, r, d);
    PairOfCores(Candidates(order, m1), r, d, t);
    assert RunClusters(order, m1, cfg) == [];
    assert Settled(order, m1, cfg);
    SettledStays(order, m1, cfg, passes);
    assert m[d.id] == d && d.id in LiveIds(m);
  }

  lemma BridgeRest(s: Engram, r: Engram, d: Engram)
    requires s.id != r.id && s.id != d.id
    ensures Without(Cores([s, r, d]), {s.id}) == [Core(r), Core(d)]
  {
    var c := Cores([s, r, d]);
    assert c == [Core(s), Core(r), Core(d)] && c[1..] == [Core(r), Core(d)];
    assert [Core(r), Core(d)][1..] == [Core(d)] && [Core(d)][1..] == [];
    assert Without([Core(d)], {s.id}) == [Core(d)];
    assert Without([Core(r), Core(d)], {s.id}) == [Core(r), Core(d)];
  }

  lemma DotOfTwo(x0: real, x1: real, y0: real, y1: real)
    ensures Dot([x0, x1], [y0, y1]) == x0 * y0 + x1 * y1
  {
    assert [x0, x1][..1] == [x0] && [y0, y1][..1] == [y0] && [x0][..0] == [] && [y0][..0] == [];
    assert Dot([], []) == 0.0;
    assert Dot([x0], [y0]) == Product(x0, y0);
  }

  /** Embeddings in the plane that make a bridge at the default threshold. */
  lemma BridgeEmbeddings()
    ensures Meets([1.0, 0.0], [4.0, 1.0], 0.95) && Meets([1.0, 0.0], [4.0, -1.0], 0.95)
    ensures !Meets([4.0, 1.0], [4.0, -1.0], 0.95)
  {
    DotOfTwo(1.0, 0.0, 1.0, 0.0);
    DotOfTwo(1.0, 0.0, 4.0, 1.0);
    DotOfTwo(1.0, 0.0, 4.0, -1.0);
    DotOfTwo(4.0, 1.0, 4.0, 1.0);
    DotOfTwo(4.0, -1.0, 4.0, -1.0);
    DotOfTwo(4.0, 1.0, 4.0, -1.0);
    hide Dot;
  }
}
