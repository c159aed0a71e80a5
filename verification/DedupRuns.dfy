/** Whole dedup runs, and any number of them: what is never lost, what is conserved,
    how much one run merges and why repetition reaches a fixpoint. */
module DedupRuns {

  import opened Common
  import opened Similarity
  import opened Separation
  import opened Dedup

  // ---------- Clusters partition the candidates ----------

  lemma {:induction false} SplitFacts(seed: Engram, c: seq<Engram>, t: real)
    requires t > 0.0
    ensures forall e :: e in Similar(seed, c, t) <==> e in c && Meets(seed.embedding, e.embedding, t)
    ensures forall e :: e in Dissimilar(seed, c, t) <==> e in c && !Meets(seed.embedding, e.embedding, t)
  {
    if c != [] {
      SplitFacts(seed, c[1..], t);
      assert c == [c[0]] + c[1..];
    }
  }

  lemma {:induction false} SplitDistinct(seed: Engram, c: seq<Engram>, t: real)
    requires t > 0.0 && DistinctIds(c)
    ensures DistinctIds(Similar(seed, c, t)) && DistinctIds(Dissimilar(seed, c, t))
  {
    if c != [] {
      SplitDistinct(seed, c[1..], t);
      SplitFacts(seed, c[1..], t);
      assert forall e | e in c[1..] :: e.id != c[0].id;
    }
  }

  ghost predicate AllIn(cls: seq<seq<Engram>>, c: seq<Engram>) {
    forall k | k in cls :: forall e | e in k :: e in c
  }

  /** No engram appears in two clusters or twice in one. */
  ghost predicate Separate(cls: seq<seq<Engram>>) {
    cls != [] ==>
      && DistinctIds(cls[0])
      && (forall k | k in cls[1..] :: forall e, f | e in cls[0] && f in k :: e.id != f.id)
      && Separate(cls[1..])
  }

  lemma {:induction false} ClustersWithin(c: seq<Engram>, t: real)
    requires t > 0.0
    ensures AllIn(Clusters(c, t), c)
    decreases |c|
  {
    if c != [] {
      SplitFacts(c[0], c[1..], t);
      ClustersWithin(Dissimilar(c[0], c[1..], t), t);
      assert forall e | e in Dissimilar(c[0], c[1..], t) :: e in c;
      assert forall e | e in [c[0]] + Similar(c[0], c[1..], t) :: e in c;
    }
  }

  /** A seed's cluster shares no id with what it left unclaimed. */
  lemma SeedApart(c: seq<Engram>, t: real)
    requires t > 0.0 && DistinctIds(c) && c != []
    ensures DistinctIds([c[0]] + Similar(c[0], c[1..], t))
    ensures forall e, f | e in [c[0]] + Similar(c[0], c[1..], t) && f in Dissimilar(c[0], c[1..], t) :: e.id != f.id
  {
    var tail := c[1..];
    var similar, others := Similar(c[0], tail, t), Dissimilar(c[0], tail, t);
    SplitFacts(c[0], tail, t);
    SplitDistinct(c[0], tail, t);
    forall e, f | e in [c[0]] + similar && f in others
      ensures e.id != f.id
    {
      assert f in tail;
      assert e == c[0] || e in similar;
      if e != c[0] {
        assert e in tail && e != f;
      }
    }
    forall j | 0 <= j < |similar|
      ensures similar[j].id != c[0].id
    {
      assert similar[j] in similar;
    }
  }

  lemma {:induction false} ClustersSeparate(c: seq<Engram>, t: real)
    requires t > 0.0 && DistinctIds(c)
    ensures Separate(Clusters(c, t))
    decreases |c|
  {
    if c != [] {
      var others := Dissimilar(c[0], c[1..], t);
      var cluster, rest := [c[0]] + Similar(c[0], c[1..], t), Clusters(others, t);
      SplitDistinct(c[0], c[1..], t);
      ClustersSeparate(others, t);
      ClustersWithin(others, t);
      SeedApart(c, t);
      assert ([cluster] + rest)[1..] == rest;
    }
  }

  lemma CandidatesCurrent(order: seq<Id>, m: Engrams)
    requires Elements(order) <= m.Keys && forall id | id in m :: m[id].id == id
    ensures Current(m, Candidates(order, m))
    ensures forall e | e in Candidates(order, m) :: e.id in order
  {
    forall e | e in Candidates(order, m)
      ensures e.id in order && e.id in m && m[e.id] == e && Live(e)
    {
      CandidatesIff(order, m, e);
      var id :| id in order && m[id] == e;
      assert id in Elements(order);
    }
  }

  lemma {:induction false} CandidatesFacts(order: seq<Id>, m: Engrams)
    requires NoDuplicates(order) && Elements(order) <= m.Keys
    requires forall id | id in m :: m[id].id == id
    ensures DistinctIds(Candidates(order, m)) && Current(m, Candidates(order, m))
    ensures forall e | e in Candidates(order, m) :: e.id in order
  {
    CandidatesCurrent(order, m);
    if order != [] {
      var tail := order[1..];
      assert order[0] in Elements(order) && Elements(tail) <= Elements(order) && order[0] !in tail;
      CandidatesCurrent(tail, m);
      CandidatesFacts(tail, m);
      hide NoDuplicates, Elements, Current;
      var rest := Candidates(tail, m);
      assert forall i | 0 <= i < |rest| :: rest[i] in rest;
    }
  }

  /** A copy of the seed's embedding always joins the seed's cluster. */
  lemma IdenticalEmbeddingJoins(seed: Engram, c: seq<Engram>, e: Engram, t: real)
    requires 0.0 < t <= 1.0 && e in c
    requires e.embedding == seed.embedding && Dot(seed.embedding, seed.embedding) > 0.0
    ensures e in Similar(seed, c, t)
  {
    IdenticalMeets(seed.embedding, t);
    SplitFacts(seed, c, t);
  }

  // ---------- Election ----------

  /** There is no representative exactly when no score exceeds -1. */
  lemma {:induction false} ElectNone(c: seq<Engram>)
    ensures Elect(c).None? <==> forall e | e in c :: Score(e) <= -1.0
  {
    if c != [] {
      ElectNone(c[..|c| - 1]);
      assert c == c[..|c| - 1] + [c[|c| - 1]];
    }
  }

  /** Otherwise it is the first member of highest score. */
  lemma {:induction false} ElectIsFirstMaximum(c: seq<Engram>) returns (k: nat)
    requires Elect(c).Some?
    ensures k < |c| && c[k] == Elect(c).value
    ensures forall j | 0 <= j < k :: Score(c[j]) < Score(c[k])
    ensures forall j | k < j < |c| :: Score(c[j]) <= Score(c[k])
  {
    var n := |c| - 1;
    var best := Elect(c[..n]);
    if Score(c[n]) > ScoreOf(best) {
      k := n;
      if best.Some? {
        var i := ElectIsFirstMaximum(c[..n]);
        assert forall j | 0 <= j < n :: Score(c[j]) == Score(c[..n][j]) <= Score(c[i]);
      } else {
        ElectNone(c[..n]);
        assert forall j | 0 <= j < n :: c[j] in c[..n];
      }
    } else {
      k := ElectIsFirstMaximum(c[..n]);
      assert forall j | 0 <= j < n :: c[j] == c[..n][j];
    }
  }

  ghost predicate NoProductAbove(c: seq<Engram>, bound: real) {
    forall i | 0 <= i < |c| :: c[i].relevance * c[i].confidence <= bound
  }

  ghost predicate ProductsBelow(c: seq<Engram>, bound: real) {
    forall i | 0 <= i < |c| :: c[i].relevance * c[i].confidence < bound
  }

  /** In the terms of the source: no representative when no product of relevance and
      confidence exceeds -1 ... */
  lemma ElectsAboveMinusOne(c: seq<Engram>)
    ensures Elect(c).None? <==> NoProductAbove(c, -1.0)
  {
    ElectNone(c);
    hide Elect;
    forall i | 0 <= i < |c|
      ensures Score(c[i]) <= -1.0 <==> c[i].relevance * c[i].confidence <= -1.0
    {
    }
    hide Score;
    assert forall i | 0 <= i < |c| :: c[i] in c;
  }

  lemma ScoresAreProducts(c: seq<Engram>, bound: real)
    ensures (forall i | 0 <= i < |c| :: Score(c[i]) < bound) ==> ProductsBelow(c, bound)
    ensures (forall i | 0 <= i < |c| :: Score(c[i]) <= bound) ==> NoProductAbove(c, bound)
  {
  }

  /** ... and otherwise the first member whose product is highest. */
  lemma ElectsHighestProduct(c: seq<Engram>) returns (k: nat)
    requires Elect(c).Some?
    ensures k < |c| && c[k] == Elect(c).value
    ensures ProductsBelow(c[..k], c[k].relevance * c[k].confidence)
    ensures NoProductAbove(c[k..], c[k].relevance * c[k].confidence)
  {
    k := ElectIsFirstMaximum(c);
    var best := Score(c[k]);
    assert best == c[k].relevance * c[k].confidence;
    hide Elect, Score, ProductsBelow, NoProductAbove;
    ScoresAreProducts(c[..k], best);
    ScoresAreProducts(c[k..], best);
  }

  // ---------- One run ----------

  ghost predicate Ready(m: Engrams, cls: seq<seq<Engram>>) {
    Separate(cls) && forall c | c in cls :: Current(m, c)
  }

  /** Signatures stay; every merge moves one engram from live to archived. */
  ghost predicate KeepsFacts(o: Outcome, r: Outcome, cfg: Config) {
    && r.engrams.Keys == o.engrams.Keys
    && (forall id | id in o.engrams :: r.engrams[id].id == o.engrams[id].id)
    && LiveSignatures(r.engrams) == LiveSignatures(o.engrams)
    && o.merged <= r.merged
    && (cfg.dryRun ==> r.engrams == o.engrams)
    && (!cfg.dryRun ==>
          && |LiveIds(r.engrams)| + r.merged == |LiveIds(o.engrams)| + o.merged
          && |ArchivedIds(r.engrams)| - r.merged == |ArchivedIds(o.engrams)| - o.merged)
  }

  ghost predicate KeepsTags(o: Outcome, r: Outcome, faults: Faults) {
    TagListsDistinct(o.engrams) ==>
      TagListsDistinct(r.engrams) && (faults.tags == {} ==> LiveTags(o.engrams) <= LiveTags(r.engrams))
  }

  /** No live counter can overflow, even if its engram absorbed every live one. */
  ghost predicate AccessRoom(m: Engrams) {
    forall id | id in m && Live(m[id]) :: m[id].accessCount + |LiveIds(m)| < TWO_32
  }

  /** Access counts and merges balance modulo 2^32, and exactly when there is room. */
  ghost predicate KeepsAccess(order: seq<Id>, o: Outcome, r: Outcome, cfg: Config, faults: Faults) {
    !cfg.dryRun && faults.metadata == {} ==>
      && WholeTurns(Lost(order, o, r))
      && (AccessRoom(o.engrams) ==> AccessRoom(r.engrams) && Lost(order, o, r) == 0)
  }

  /** What counters that wrap around lose. */
  ghost predicate WholeTurns(n: int) {
    n >= 0 && n % TWO_32 == 0
  }

  lemma TurnsAdd(m: int, n: int)
    requires WholeTurns(m) && WholeTurns(n)
    ensures WholeTurns(m + n)
  {
  }

  lemma NoTurns()
    ensures WholeTurns(0)
  {
  }

  lemma BumpLoses(count: UInt32, n: nat)
    ensures WholeTurns(count + n - Bump(count, n))
    ensures count + n < TWO_32 ==> Bump(count, n) == count + n
  {
  }

  /** By how much access counts lag behind the merges. */
  ghost function Lost(order: seq<Id>, o: Outcome, r: Outcome): int {
    (TotalAccess(order, o.engrams) - o.merged) - (TotalAccess(order, r.engrams) - r.merged)
  }

  /** What every prefix of a run keeps, from outcome `o` to outcome `r`. */
  ghost predicate Advances(order: seq<Id>, o: Outcome, r: Outcome, cfg: Config, faults: Faults) {
    KeepsFacts(o, r, cfg) && KeepsTags(o, r, faults) && KeepsAccess(order, o, r, cfg, faults)
  }

  /** What the step leaves in the survivor's record. */
  lemma StepSurvivor(o: Outcome, c: seq<Engram>, cfg: Config, faults: Faults)
    requires Current(o.engrams, c) && DistinctIds(c) && Elect(c).Some?
    requires !cfg.dryRun && MembersOf(c, cfg, o.merged) != []
    ensures var rep, members := Elect(c).value, MembersOf(c, cfg, o.merged);
            var r, n := StepCluster(o, c, cfg, faults).engrams, ArchiveCount(members, faults.archive);
            && rep.id in r
            && (rep.id !in faults.metadata ==>
                  r[rep.id].accessCount == Bump(rep.accessCount, n))
            && (NoDuplicates(rep.tags) ==> NoDuplicates(r[rep.id].tags))
            && (NoDuplicates(rep.tags) && rep.id !in faults.tags ==>
                  Elements(rep.tags) + TagsOf(members) <= Elements(r[rep.id].tags))
  {
    var rep, members, m := Elect(c).value, MembersOf(c, cfg, o.merged), o.engrams;
    MembersOfCluster(c, cfg, o.merged);
    ArchiveAllEffect(m, members, faults.archive);
    assert rep.id !in Ids(members);
    hide Bump, NoDuplicates, TagsOf, SignatureOf, DistinctIds;
    PersistEffect(ArchiveAll(m, members, faults.archive), rep, ArchiveCount(members, faults.archive), members, faults);
  }

  lemma MergeKeepsTags(m: Engrams, r: Engrams, rep: Engram, members: seq<Engram>, gone: set<Id>)
    requires Merges(m, r, rep, gone) && Current(m, members) && gone <= Ids(members)
    requires Elements(rep.tags) + TagsOf(members) <= Elements(r[rep.id].tags)
    ensures LiveTags(m) <= LiveTags(r)
  {
    forall t | t in LiveTags(m)
      ensures t in LiveTags(r)
    {
      var id :| id in m && Live(m[id]) && t in m[id].tags;
      if id in gone {
        var e :| e in members && e.id == id;
        assert m[id] == e && t in TagsOf(members);
      }
      if id in gone || id == rep.id {
        assert t in Elements(r[rep.id].tags);
        assert rep.id in r && Live(r[rep.id]) && t in r[rep.id].tags;
      } else {
        assert id in r && Live(r[id]) && t in r[id].tags;
      }
    }
  }

  lemma MergeKeepsTagLists(m: Engrams, r: Engrams, rep: Engram, gone: set<Id>)
    requires Merges(m, r, rep, gone) && TagListsDistinct(m)
    requires NoDuplicates(rep.tags) ==> NoDuplicates(r[rep.id].tags)
    ensures TagListsDistinct(r) && NoDuplicates(rep.tags)
  {
  }

  lemma MergeKeepsRoom(m: Engrams, r: Engrams, rep: Engram, gone: set<Id>)
    requires Merges(m, r, rep, gone) && AccessRoom(m)
    requires r[rep.id].accessCount == rep.accessCount + |gone|
    ensures AccessRoom(r)
  {
    MergesMovesIds(m, r, rep, gone);
    hide LiveIds, SignatureOf;
  }

  lemma MergeKeepsAccess(order: seq<Id>, m: Engrams, r: Engrams, rep: Engram, gone: set<Id>)
    requires NoDuplicates(order) && Elements(order) == m.Keys
    requires Merges(m, r, rep, gone) && r[rep.id].accessCount == Bump(rep.accessCount, |gone|)
    ensures WholeTurns(TotalAccess(order, m) + |gone| - TotalAccess(order, r))
    ensures AccessRoom(m) ==> AccessRoom(r) && TotalAccess(order, r) == TotalAccess(order, m) + |gone|
  {
    hide Bump, WholeTurns, SignatureOf, NoDuplicates;
    BumpLoses(rep.accessCount, |gone|);
    assert rep.id in Elements(order);
    TotalAccessUpdate(order, m, r, rep.id, Bump(rep.accessCount, |gone|) - rep.accessCount);
    if AccessRoom(m) {
      MergesMovesIds(m, r, rep, gone);
      SubsetSize(gone, LiveIds(m));
      MergeKeepsRoom(m, r, rep, gone);
    }
  }

  lemma MergeKeepsFacts(o: Outcome, r: Outcome, rep: Engram, gone: set<Id>, cfg: Config)
    requires !cfg.dryRun && Merges(o.engrams, r.engrams, rep, gone) && r.merged == o.merged + |gone|
    ensures KeepsFacts(o, r, cfg)
  {
    MergesKeepsSignatures(o.engrams, r.engrams, rep, gone);
    MergesMovesIds(o.engrams, r.engrams, rep, gone);
    hide LiveIds, ArchivedIds, LiveSignatures, SignatureOf;
  }

  lemma MergeAdvances(order: seq<Id>, o: Outcome, r: Outcome, rep: Engram, members: seq<Engram>, gone: set<Id>,
                      cfg: Config, faults: Faults)
    requires NoDuplicates(order) && Elements(order) == o.engrams.Keys && !cfg.dryRun
    requires Merges(o.engrams, r.engrams, rep, gone) && r.merged == o.merged + |gone|
    requires Current(o.engrams, members) && gone <= Ids(members)
    requires NoDuplicates(rep.tags) ==> NoDuplicates(r.engrams[rep.id].tags)
    requires NoDuplicates(rep.tags) && faults.tags == {} ==>
               Elements(rep.tags) + TagsOf(members) <= Elements(r.engrams[rep.id].tags)
    requires faults.metadata == {} ==>
               r.engrams[rep.id].accessCount == Bump(rep.accessCount, |gone|)
    ensures Advances(order, o, r, cfg, faults)
  {
    hide NoDuplicates, Current, TagListsDistinct, LiveTags, KeepsFacts, Bump, WholeTurns, AccessRoom, Merges;
    var m := o.engrams;
    MergeKeepsFacts(o, r, rep, gone, cfg);
    if TagListsDistinct(m) {
      MergeKeepsTagLists(m, r.engrams, rep, gone);
      if faults.tags == {} {
        MergeKeepsTags(m, r.engrams, rep, members, gone);
      }
    }
    if faults.metadata == {} {
      MergeKeepsAccess(order, m, r.engrams, rep, gone);
    }
  }

  lemma StepIdle(order: seq<Id>, o: Outcome, c: seq<Engram>, cfg: Config, faults: Faults)
    requires Current(o.engrams, c)
    requires Elect(c).None? || cfg.dryRun || MembersOf(c, cfg, o.merged) == []
    ensures Advances(order, o, StepCluster(o, c, cfg, faults), cfg, faults)
  {
    var r := StepCluster(o, c, cfg, faults);
    assert r.engrams == o.engrams && o.merged <= r.merged && (!cfg.dryRun ==> r.merged == o.merged);
    hide StepCluster, Elect, LiveSignatures, LiveTags, LiveIds, ArchivedIds, TotalAccess, WholeTurns, AccessRoom;
    NoTurns();
  }

  lemma StepAdvances(order: seq<Id>, o: Outcome, c: seq<Engram>, cfg: Config, faults: Faults)
    requires NoDuplicates(order) && Elements(order) == o.engrams.Keys
    requires Current(o.engrams, c) && DistinctIds(c)
    ensures Advances(order, o, StepCluster(o, c, cfg, faults), cfg, faults)
  {
    if Elect(c).Some? && !cfg.dryRun && MembersOf(c, cfg, o.merged) != [] {
      hide StepCluster, Merges, Elect, MembersOf, NoDuplicates, Advances, Bump;
      var rep, members := Elect(c).value, MembersOf(c, cfg, o.merged);
      StepMerges(o, c, cfg, faults);
      StepSurvivor(o, c, cfg, faults);
      MembersOfCluster(c, cfg, o.merged);
      ArchiveCountIds(members, faults.archive);
      MergeAdvances(order, o, StepCluster(o, c, cfg, faults), rep, members, Ids(members) - faults.archive, cfg, faults);
    } else {
      StepIdle(order, o, c, cfg, faults);
    }
  }

  lemma StepReady(o: Outcome, r: Outcome, cls: seq<seq<Engram>>)
    requires cls != [] && Ready(o.engrams, cls)
    requires forall id | id in o.engrams && id !in Ids(cls[0]) :: id in r.engrams && r.engrams[id] == o.engrams[id]
    ensures Ready(r.engrams, cls[1..])
  {
    forall c, e | c in cls[1..] && e in c
      ensures e.id in r.engrams && r.engrams[e.id] == e && Live(e)
    {
      assert c in cls && Current(o.engrams, c);
      assert e.id !in Ids(cls[0]);
    }
  }

  /** The cluster loop: stops once the cap is reached. */
  ghost function StepAll(o: Outcome, cls: seq<seq<Engram>>, cfg: Config, faults: Faults): Outcome
    requires Ready(o.engrams, cls)
    decreases |cls|
  {
    if cls == [] || o.merged >= cfg.maxDedup then o
    else
      assert Current(o.engrams, cls[0]);
      StepOutside(o, cls[0], cfg, faults);
      StepReady(o, StepCluster(o, cls[0], cfg, faults), cls);
      StepAll(StepCluster(o, cls[0], cfg, faults), cls[1..], cfg, faults)
  }

  lemma StepOutside(o: Outcome, c: seq<Engram>, cfg: Config, faults: Faults)
    requires Current(o.engrams, c) && DistinctIds(c)
    ensures forall id | id in o.engrams && id !in Ids(c) ::
              id in StepCluster(o, c, cfg, faults).engrams
                  && StepCluster(o, c, cfg, faults).engrams[id] == o.engrams[id]
  {
    if Elect(c).Some? && !cfg.dryRun && MembersOf(c, cfg, o.merged) != [] {
      StepMerges(o, c, cfg, faults);
      MembersOfCluster(c, cfg, o.merged);
      assert Elect(c).value.id in Ids(c);
      assert Ids(MembersOf(c, cfg, o.merged)) <= Ids(c);
    }
  }

  lemma AdvancesNowhere(order: seq<Id>, o: Outcome, cfg: Config, faults: Faults)
    ensures Advances(order, o, o, cfg, faults)
  {
    NoTurns();
    hide LiveSignatures, LiveTags, LiveIds, ArchivedIds, TotalAccess, WholeTurns, AccessRoom, TagListsDistinct;
  }

  lemma AdvancesFurther(order: seq<Id>, o: Outcome, p: Outcome, r: Outcome, cfg: Config, faults: Faults)
    requires Advances(order, o, p, cfg, faults) && Advances(order, p, r, cfg, faults)
    ensures Advances(order, o, r, cfg, faults)
  {
    hide LiveSignatures, LiveTags, LiveIds, ArchivedIds, TotalAccess, WholeTurns, AccessRoom, TagListsDistinct;
    if WholeTurns(Lost(order, o, p)) && WholeTurns(Lost(order, p, r)) {
      TurnsAdd(Lost(order, o, p), Lost(order, p, r));
    }
  }

  lemma {:induction false} StepAllAdvances(order: seq<Id>, o: Outcome, cls: seq<seq<Engram>>, cfg: Config,
                                           faults: Faults)
    requires NoDuplicates(order) && Elements(order) == o.engrams.Keys
    requires Ready(o.engrams, cls)
    ensures Advances(order, o, StepAll(o, cls, cfg, faults), cfg, faults)
    decreases |cls|
  {
    if cls == [] || o.merged >= cfg.maxDedup {
      AdvancesNowhere(order, o, cfg, faults);
    } else {
      assert Current(o.engrams, cls[0]);
      var r := StepCluster(o, cls[0], cfg, faults);
      StepAdvances(order, o, cls[0], cfg, faults);
      StepOutside(o, cls[0], cfg, faults);
      StepReady(o, r, cls);
      hide Advances, StepCluster;
      StepAllAdvances(order, r, cls[1..], cfg, faults);
      AdvancesFurther(order, o, r, StepAll(r, cls[1..], cfg, faults), cfg, faults);
    }
  }

  ghost function RunClusters(order: seq<Id>, m: Engrams, cfg: Config): (cls: seq<seq<Engram>>)
    requires WellFormed(order, m)
    ensures Ready(m, cls)
  {
    var c := Candidates(order, m);
    var cls := Clusters(c, cfg.Threshold());
    CandidatesFacts(order, m);
    ClustersSeparate(c, cfg.Threshold());
    ClustersWithin(c, cfg.Threshold());
    assert forall k | k in cls :: Current(m, k);
    cls
  }

  /** One run of the phase. */
  ghost function Run(order: seq<Id>, m: Engrams, cfg: Config, faults: Faults): Outcome
    requires WellFormed(order, m)
  {
    StepAll(Outcome(m, 0, 0, 0), RunClusters(order, m, cfg), cfg, faults)
  }

  /** One run keeps every live signature; and, with no metadata or tag write failing,
      keeps every live tag (on duplicate-free tag lists) and conserves total access
      count less archived engrams, however many archive calls fail. */
  lemma RunAdvances(order: seq<Id>, m: Engrams, cfg: Config, faults: Faults)
    requires WellFormed(order, m)
    ensures Advances(order, Outcome(m, 0, 0, 0), Run(order, m, cfg, faults), cfg, faults)
    ensures WellFormed(order, Run(order, m, cfg, faults).engrams)
  {
    StepAllAdvances(order, Outcome(m, 0, 0, 0), RunClusters(order, m, cfg), cfg, faults);
  }

  // ---------- Any number of runs ----------

  /** One of several runs: its settings and its faults. */
  datatype Pass = Pass(cfg: Config, faults: Faults)

  lemma RunWellFormed(order: seq<Id>, m: Engrams, p: Pass)
    requires WellFormed(order, m)
    ensures WellFormed(order, Run(order, m, p.cfg, p.faults).engrams)
  {
    RunAdvances(order, m, p.cfg, p.faults);
  }

  /** Consecutive runs. */
  ghost function Runs(order: seq<Id>, m: Engrams, passes: seq<Pass>): (m': Engrams)
    requires WellFormed(order, m)
    ensures WellFormed(order, m')
  {
    if passes == [] then m
    else
      var before := Runs(order, m, passes[..|passes| - 1]);
      RunWellFormed(order, before, passes[|passes| - 1]);
      Run(order, before, passes[|passes| - 1].cfg, passes[|passes| - 1].faults).engrams
  }

  // What a run may touch

  /** The candidates are the engrams that are neither archived nor soft-deleted and have an
      embedding. */
  lemma {:induction false} CandidatesIff(order: seq<Id>, m: Engrams, e: Engram)
    requires Elements(order) <= m.Keys
    ensures e in Candidates(order, m) <==>
            e.state != 0x06 && e.state != 0x7F && e.embedding != [] && exists id :: id in order && m[id] == e
  {
    if order != [] {
      assert order[0] in Elements(order) && Elements(order[1..]) <= Elements(order);
      CandidatesIff(order[1..], m, e);
      assert order == [order[0]] + order[1..];
    }
  }

  /** Only tags and access count ever change, and the state to archived; nothing changes of
      an engram that is archived, soft-deleted or without an embedding. */
  ghost predicate Touched(e: Engram, e': Engram) {
    && e' == e.(state := e'.state, tags := e'.tags, accessCount := e'.accessCount)
    && (e'.state == e.state || e'.state == 0x06)
    && (e.state == 0x06 || e.state == 0x7F || e.embedding == [] ==> e' == e)
  }

  ghost predicate AllTouched(m: Engrams, m': Engrams) {
    m'.Keys == m.Keys && forall id | id in m :: Touched(m[id], m'[id])
  }

  lemma TouchedTwice(m: Engrams, m': Engrams, m'': Engrams)
    requires AllTouched(m, m') && AllTouched(m', m'')
    ensures AllTouched(m, m'')
  {
  }

  lemma StepTouches(o: Outcome, c: seq<Engram>, cfg: Config, faults: Faults)
    requires Current(o.engrams, c) && DistinctIds(c) && forall e | e in c :: e.embedding != []
    ensures AllTouched(o.engrams, StepCluster(o, c, cfg, faults).engrams)
  {
    if Elect(c).Some? && !cfg.dryRun && MembersOf(c, cfg, o.merged) != [] {
      StepMerges(o, c, cfg, faults);
      MembersOfCluster(c, cfg, o.merged);
      var rep, members := Elect(c).value, MembersOf(c, cfg, o.merged);
      var gone := Ids(members) - faults.archive;
      forall id | id in gone
        ensures o.engrams[id].embedding != []
      {
        var e :| e in members && e.id == id;
        assert e in c;
      }
      hide MembersOf, Ids, StepCluster;
      MergeTouches(o.engrams, StepCluster(o, c, cfg, faults).engrams, rep, gone);
    }
  }

  lemma MergeTouches(m: Engrams, m': Engrams, rep: Engram, gone: set<Id>)
    requires Merges(m, m', rep, gone) && rep.embedding != [] && forall id | id in gone :: m[id].embedding != []
    ensures AllTouched(m, m')
  {
    hide Sig;
  }

  lemma {:induction false} StepAllTouches(o: Outcome, cls: seq<seq<Engram>>, cfg: Config, faults: Faults)
    requires Ready(o.engrams, cls) && forall c, e | c in cls && e in c :: e.embedding != []
    ensures AllTouched(o.engrams, StepAll(o, cls, cfg, faults).engrams)
    decreases |cls|
  {
    if cls != [] && o.merged < cfg.maxDedup {
      assert cls[0] in cls && Current(o.engrams, cls[0]);
      var r := StepCluster(o, cls[0], cfg, faults);
      StepTouches(o, cls[0], cfg, faults);
      StepOutside(o, cls[0], cfg, faults);
      StepReady(o, r, cls);
      hide StepCluster, AllTouched;
      StepAllTouches(r, cls[1..], cfg, faults);
      TouchedTwice(o.engrams, r.engrams, StepAll(r, cls[1..], cfg, faults).engrams);
    }
  }

  lemma RunTouches(order: seq<Id>, m: Engrams, cfg: Config, faults: Faults)
    requires WellFormed(order, m)
    ensures AllTouched(m, Run(order, m, cfg, faults).engrams)
  {
    var c := Candidates(order, m);
    ClustersWithin(c, cfg.Threshold());
    forall e | e in c
      ensures e.embedding != []
    {
      CandidatesIff(order, m, e);
    }
    StepAllTouches(Outcome(m, 0, 0, 0), RunClusters(order, m, cfg), cfg, faults);
  }

  /** Over any number of runs, with any settings and faults, no run changes an engram's
      text, scores or embedding, touches a retired one or brings one back. */
  lemma {:induction false} RunsTouch(order: seq<Id>, m: Engrams, passes: seq<Pass>)
    requires WellFormed(order, m)
    ensures AllTouched(m, Runs(order, m, passes))
    decreases |passes|
  {
    hide AllTouched;
    if passes == [] {
      TouchedNone(m);
      NoRuns(order, m);
    } else {
      var init, p := passes[..|passes| - 1], passes[|passes| - 1];
      var before := Runs(order, m, init);
      RunsTouch(order, m, init);
      RunTouches(order, before, p.cfg, p.faults);
      TouchedTwice(m, before, Runs(order, m, passes));
    }
  }

  lemma TouchedNone(m: Engrams)
    ensures AllTouched(m, m)
  {
  }

  /** A run clusters at the configured threshold if that is positive, and else at 0.95. */
  lemma RunThreshold(order: seq<Id>, m: Engrams, cfg: Config)
    requires WellFormed(order, m)
    ensures RunClusters(order, m, cfg) ==
            Clusters(Candidates(order, m), if cfg.dedupThreshold > 0.0 then cfg.dedupThreshold else 0.95)
  {
  }

  lemma {:induction false} RunsKeepSignatures(order: seq<Id>, m: Engrams, passes: seq<Pass>)
    requires WellFormed(order, m)
    ensures LiveSignatures(Runs(order, m, passes)) == LiveSignatures(m)
  {
    if passes != [] {
      var init, p := passes[..|passes| - 1], passes[|passes| - 1];
      RunsKeepSignatures(order, m, init);
      RunAdvances(order, Runs(order, m, init), p.cfg, p.faults);
    }
  }

  lemma {:induction false} RunsKeepTags(order: seq<Id>, m: Engrams, passes: seq<Pass>)
    requires WellFormed(order, m) && TagListsDistinct(m)
    requires forall p | p in passes :: p.faults.tags == {}
    ensures LiveTags(m) <= LiveTags(Runs(order, m, passes))
    ensures TagListsDistinct(Runs(order, m, passes))
  {
    if passes != [] {
      var init, p := passes[..|passes| - 1], passes[|passes| - 1];
      RunsKeepTags(order, m, init);
      RunAdvances(order, Runs(order, m, init), p.cfg, p.faults);
    }
  }

  /** Total access count minus archived engrams. */
  ghost function Balance(order: seq<Id>, m: Engrams): int {
    TotalAccess(order, m) - |ArchivedIds(m)|
  }

  lemma RunsSnoc(order: seq<Id>, m: Engrams, passes: seq<Pass>)
    requires WellFormed(order, m) && passes != []
    ensures var p := passes[|passes| - 1];
            Runs(order, m, passes) == Run(order, Runs(order, m, passes[..|passes| - 1]), p.cfg, p.faults).engrams
  {
    hide Run, WellFormed;
  }

  lemma RunBalance(order: seq<Id>, m: Engrams, p: Pass)
    requires WellFormed(order, m) && p.faults.metadata == {}
    ensures var m' := Run(order, m, p.cfg, p.faults).engrams;
            && WholeTurns(Balance(order, m) - Balance(order, m'))
            && (AccessRoom(m) ==> AccessRoom(m') && Balance(order, m') == Balance(order, m))
  {
    RunAdvances(order, m, p.cfg, p.faults);
    hide Run, TotalAccess, AccessRoom, WholeTurns;
    NoTurns();
  }

  /** Over any runs whose metadata writes succeed, total access count minus archived
      engrams is constant modulo 2^32; and exactly, when no live counter is within the
      number of live engrams of overflowing. */
  lemma {:induction false} RunsConserveAccess(order: seq<Id>, m: Engrams, passes: seq<Pass>)
    requires WellFormed(order, m)
    requires forall p | p in passes :: p.faults.metadata == {}
    ensures var m' := Runs(order, m, passes);
            && WholeTurns(Balance(order, m) - Balance(order, m'))
            && (AccessRoom(m) ==> AccessRoom(m') && Balance(order, m') == Balance(order, m))
  {
    hide Run, Runs, Balance, AccessRoom, WholeTurns;
    if passes != [] {
      var init, p := passes[..|passes| - 1], passes[|passes| - 1];
      RunsConserveAccess(order, m, init);
      var before := Runs(order, m, init);
      RunBalance(order, before, p);
      RunsSnoc(order, m, passes);
      var after := Runs(order, m, passes);
      TurnsAdd(Balance(order, m) - Balance(order, before), Balance(order, before) - Balance(order, after));
    } else {
      NoRuns(order, m);
      NoTurns();
    }
  }

  lemma NoRuns(order: seq<Id>, m: Engrams)
    requires WellFormed(order, m)
    ensures Runs(order, m, []) == m
  {
  }

  // ---------- How much one run merges ----------

  ghost function TotalAbsorbable(cls: seq<seq<Engram>>): nat {
    if cls == [] then 0
    else
      (match Elect(cls[0]) case None => 0 case Some(rep) => |Absorbable(rep, cls[0])|) +
      TotalAbsorbable(cls[1..])
  }

  lemma StepMergeCount(o: Outcome, c: seq<Engram>, cfg: Config, faults: Faults)
    requires Current(o.engrams, c) && DistinctIds(c)
    ensures var r := StepCluster(o, c, cfg, faults).merged - o.merged;
            && 0 <= r <= |MembersOf(c, cfg, o.merged)|
            && (cfg.dryRun || faults.archive == {} ==> r == |MembersOf(c, cfg, o.merged)|)
  {
  }

  /** MaxDedup is a hard cap; without archive failures a run, dry or not, merges
      exactly the smaller of the cap and all absorbable members. */
  lemma {:induction false} MergedCount(o: Outcome, cls: seq<seq<Engram>>, cfg: Config, faults: Faults)
    requires Ready(o.engrams, cls) && o.merged <= Max(0, cfg.maxDedup)
    ensures StepAll(o, cls, cfg, faults).merged <= Max(0, cfg.maxDedup)
    ensures cfg.dryRun || faults.archive == {} ==>
              StepAll(o, cls, cfg, faults).merged == Min(Max(0, cfg.maxDedup), o.merged + TotalAbsorbable(cls))
    decreases |cls|
  {
    if cls != [] && o.merged < cfg.maxDedup {
      assert Current(o.engrams, cls[0]);
      var r := StepCluster(o, cls[0], cfg, faults);
      StepMergeCount(o, cls[0], cfg, faults);
      StepOutside(o, cls[0], cfg, faults);
      StepReady(o, r, cls);
      MergedCount(r, cls[1..], cfg, faults);
    }
  }

  lemma RunMergedCount(order: seq<Id>, m: Engrams, cfg: Config, faults: Faults)
    requires WellFormed(order, m)
    ensures Run(order, m, cfg, faults).merged <= Max(0, cfg.maxDedup)
    ensures cfg.dryRun || faults.archive == {} ==>
              Run(order, m, cfg, faults).merged ==
              Min(Max(0, cfg.maxDedup), TotalAbsorbable(RunClusters(order, m, cfg)))
  {
    MergedCount(Outcome(m, 0, 0, 0), RunClusters(order, m, cfg), cfg, faults);
  }

  /** A dry run predicts the count of the real run that meets no archive failure,
      and touches nothing. */
  lemma DryRunPredicts(order: seq<Id>, m: Engrams, cfg: Config, faults: Faults, dryFaults: Faults)
    requires WellFormed(order, m) && faults.archive == {}
    ensures Run(order, m, cfg.(dryRun := true), dryFaults).engrams == m
    ensures Run(order, m, cfg.(dryRun := true), dryFaults).merged ==
            Run(order, m, cfg.(dryRun := false), faults).merged
  {
    var dry, wet := cfg.(dryRun := true), cfg.(dryRun := false);
    RunAdvances(order, m, dry, dryFaults);
    RunMergedCount(order, m, dry, dryFaults);
    RunMergedCount(order, m, wet, faults);
    assert dry.Threshold() == wet.Threshold();
  }

  // ---------- The fixpoint ----------

  ghost predicate Settled(order: seq<Id>, m: Engrams, cfg: Config)
    requires WellFormed(order, m)
  {
    TotalAbsorbable(RunClusters(order, m, cfg)) == 0
  }

  lemma {:induction false} NothingToAbsorb(o: Outcome, cls: seq<seq<Engram>>, cfg: Config, faults: Faults)
    requires Ready(o.engrams, cls) && TotalAbsorbable(cls) == 0
    ensures StepAll(o, cls, cfg, faults).engrams == o.engrams
    decreases |cls|
  {
    if cls != [] && o.merged < cfg.maxDedup {
      assert Current(o.engrams, cls[0]);
      StepOutside(o, cls[0], cfg, faults);
      StepReady(o, StepCluster(o, cls[0], cfg, faults), cls);
      NothingToAbsorb(StepCluster(o, cls[0], cfg, faults), cls[1..], cfg, faults);
    }
  }

  /** A settled vault is a fixpoint of every run, whatever fails. */
  lemma SettledIsFixpoint(order: seq<Id>, m: Engrams, cfg: Config, faults: Faults)
    requires WellFormed(order, m) && Settled(order, m, cfg)
    ensures Run(order, m, cfg, faults).engrams == m
  {
    NothingToAbsorb(Outcome(m, 0, 0, 0), RunClusters(order, m, cfg), cfg, faults);
  }

  /** A real run that may merge something, at threshold `t`, with no archive failing. */
  predicate Effective(p: Pass, t: real) {
    p.cfg.maxDedup >= 1 && !p.cfg.dryRun && p.faults.archive == {} && p.cfg.Threshold() == t
  }

  /** Only the threshold matters to being settled. */
  lemma SettledByThreshold(order: seq<Id>, m: Engrams, cfg: Config, other: Config)
    requires WellFormed(order, m) && cfg.Threshold() == other.Threshold()
    ensures Settled(order, m, cfg) <==> Settled(order, m, other)
  {
  }

  /** Either the vault has settled or each run so far has retired an engram. */
  lemma {:induction false} RunsProgress(order: seq<Id>, m: Engrams, passes: seq<Pass>, cfg: Config)
    requires WellFormed(order, m) && forall p | p in passes :: Effective(p, cfg.Threshold())
    ensures Settled(order, Runs(order, m, passes), cfg) ||
            |LiveIds(Runs(order, m, passes))| + |passes| <= |LiveIds(m)|
  {
    if passes != [] {
      var init, p := passes[..|passes| - 1], passes[|passes| - 1];
      assert Effective(p, cfg.Threshold());
      RunsProgress(order, m, init, cfg);
      var before := Runs(order, m, init);
      SettledByThreshold(order, before, cfg, p.cfg);
      if Settled(order, before, p.cfg) {
        SettledIsFixpoint(order, before, p.cfg, p.faults);
      } else {
        RunAdvances(order, before, p.cfg, p.faults);
        RunMergedCount(order, before, p.cfg, p.faults);
      }
    }
  }

  /** With positive caps and no archive failures, as many runs as there are live engrams
      reach a state that no further run at that threshold changes. */
  lemma RunsReachFixpoint(order: seq<Id>, m: Engrams, passes: seq<Pass>, next: Pass)
    requires WellFormed(order, m) && forall p | p in passes :: Effective(p, next.cfg.Threshold())
    requires |passes| >= |LiveIds(m)|
    ensures var m' := Runs(order, m, passes);
            Settled(order, m', next.cfg) && Run(order, m', next.cfg, next.faults).engrams == m'
  {
    RunsProgress(order, m, passes, next.cfg);
    var m' := Runs(order, m, passes);
    NoLiveNoClusters(order, m', next.cfg);
    SettledIsFixpoint(order, m', next.cfg, next.faults);
  }

  lemma NoLiveNoClusters(order: seq<Id>, m: Engrams, cfg: Config)
    requires WellFormed(order, m)
    ensures LiveIds(m) == {} ==> Settled(order, m, cfg)
  {
    CandidatesFacts(order, m);
    var c := Candidates(order, m);
    if c != [] {
      assert c[0] in c && c[0].id in LiveIds(m);
    }
  }

  // ---------- The tag-list condition ----------

  /** A length comparison that finds no change means there was none to write. */
  ghost predicate DetectsChange(rep: Engram, members: seq<Engram>) {
    |MergedTags(rep, members)| == |rep.tags| ==> TagsOf(members) <= Elements(rep.tags)
  }

  lemma {:induction false} RepeatedIsLonger<T>(s: seq<T>)
    ensures |Elements(s)| <= |s|
    ensures !NoDuplicates(s) ==> |Elements(s)| < |s|
  {
    if s != [] {
      var init, last := s[..|s| - 1], s[|s| - 1];
      RepeatedIsLonger(init);
      assert s == init + [last];
      assert Elements(s) == Elements(init) + {last};
      assert last in Elements(init) <==> last in init;
    }
  }

  ghost function Longest(tags: seq<string>): (n: nat)
    ensures forall t | t in tags :: |t| <= n
  {
    if tags == [] then 0
    else
      assert tags == [tags[0]] + tags[1..];
      Max(|tags[0]|, Longest(tags[1..]))
  }

  /** `n` different tags, each longer than any of `tags`. */
  lemma FreshTags(tags: seq<string>, n: nat) returns (r: seq<string>)
    ensures |r| == n && |Elements(r)| == n
    ensures Elements(r) !! Elements(tags)
  {
    r := seq(n, i requires 0 <= i => seq(Longest(tags) + 1 + i, _ => 'x'));
    assert forall i | 0 <= i < n :: |r[i]| == Longest(tags) + 1 + i;
    DistinctLength(r);
  }

  ghost predicate AllAbsorbed(rep: Engram, members: seq<Engram>) {
    forall e | e in members :: Absorbs(rep, e)
  }

  /** Change is detected by length, so a survivor whose tag list repeats a tag
      loses the tags of some engram it absorbs: a tag list is safe exactly when it
      is duplicate-free. */
  lemma TagListConditionIsExact(rep: Engram)
    ensures NoDuplicates(rep.tags) <==> forall members | AllAbsorbed(rep, members) :: DetectsChange(rep, members)
  {
    if NoDuplicates(rep.tags) {
      forall members | AllAbsorbed(rep, members)
        ensures DetectsChange(rep, members)
      {
        if |MergedTags(rep, members)| == |rep.tags| {
          SameLengthSameTags(rep, members);
        }
      }
    } else {
      var twin := LosesTags(rep);
      assert AllAbsorbed(rep, [twin]);
    }
  }

  function OtherId(id: Id): (r: Id)
    ensures r != id
  {
    assert id[0 := 1][0] == 1 && id[0 := 0][0] == 0;
    if id[0] == 0 then id[0 := 1] else id[0 := 0]
  }

  /** Another engram with the same text, embedding and scores, tagged differently. */
  function Twin(rep: Engram, tags: seq<string>): (e: Engram)
    ensures Absorbs(rep, e)
  {
    rep.(id := OtherId(rep.id), tags := tags)
  }

  lemma MergedLength(rep: Engram, tags: seq<string>)
    ensures var members := [Twin(rep, tags)];
            && |MergedTags(rep, members)| == |Elements(rep.tags) + Elements(tags)|
            && TagsOf(members) == Elements(tags)
  {
    var members := [Twin(rep, tags)];
    assert TagsOf(members) == Elements(tags) by {
      assert members[0] in members;
    }
    MergedTagsEffect(rep, members);
    DistinctLength(MergedTags(rep, members));
  }

  /** A twin whose new tags make up exactly for the repeated ones. */
  lemma LosesTags(rep: Engram) returns (twin: Engram)
    requires !NoDuplicates(rep.tags)
    ensures twin == Twin(rep, twin.tags) && Absorbs(rep, twin)
    ensures twin.tags != [] && Elements(twin.tags) !! Elements(rep.tags)
    ensures |MergedTags(rep, [twin])| == |rep.tags| && !DetectsChange(rep, [twin])
  {
    RepeatedIsLonger(rep.tags);
    var extra := FreshTags(rep.tags, |rep.tags| - |Elements(rep.tags)|);
    twin := Twin(rep, extra);
    MergedLength(rep, extra);
    assert extra[0] in Elements(extra);
  }

  // ---------- A run that loses a tag ----------

  ghost predicate Mergeable(rep: Engram, cfg: Config) {
    && Live(rep) && Dot(rep.embedding, rep.embedding) > 0.0 && Score(rep) > -1.0
    && cfg.maxDedup >= 1 && !cfg.dryRun && cfg.Threshold() <= 1.0
  }

  const NO_FAULTS := Faults({}, {}, {})

  function PairVault(rep: Engram, twin: Engram): Engrams {
    map[rep.id := rep, twin.id := twin]
  }

  lemma PairClusters(rep: Engram, twin: Engram, cfg: Config)
    requires Mergeable(rep, cfg) && twin == Twin(rep, twin.tags)
    ensures WellFormed([rep.id, twin.id], PairVault(rep, twin))
    ensures RunClusters([rep.id, twin.id], PairVault(rep, twin), cfg) == [[rep, twin]]
  {
    var order, m := [rep.id, twin.id], PairVault(rep, twin);
    assert Elements(order) == m.Keys;
    assert order[1..] == [twin.id] && order[1..][1..] == [];
    assert rep.embedding != [];
    assert Candidates(order[1..], m) == [twin];
    assert Candidates(order, m) == [rep, twin];
    PairCluster(rep, twin, cfg.Threshold());
  }

  lemma PairCluster(rep: Engram, twin: Engram, t: real)
    requires 0.0 < t <= 1.0 && twin.embedding == rep.embedding && Dot(rep.embedding, rep.embedding) > 0.0
    ensures Clusters([rep, twin], t) == [[rep, twin]]
  {
    var c := [rep, twin];
    IdenticalMeets(rep.embedding, t);
    assert c[1..] == [twin] && [twin][1..] == [];
    hide Meets;
    assert Similar(rep, [], t) == [] && Dissimilar(rep, [], t) == [];
    assert Similar(rep, [twin], t) == [twin] && Dissimilar(rep, [twin], t) == [];
    assert [c[0]] + Similar(c[0], c[1..], t) == c;
    assert Clusters(Dissimilar(c[0], c[1..], t), t) == [];
  }

  lemma PairMembers(rep: Engram, twin: Engram, cfg: Config)
    requires Mergeable(rep, cfg) && twin == Twin(rep, twin.tags)
    ensures Elect([rep, twin]) == Some(rep) && MembersOf([rep, twin], cfg, 0) == [twin]
  {
    assert [rep, twin][..1] == [rep] && [rep][..0] == [];
    assert Elect([rep]) == Some(rep);
    assert Absorbable(rep, [rep]) == [];
    assert Absorbable(rep, [rep, twin]) == [twin];
  }

  lemma PairDistinct(rep: Engram, twin: Engram)
    requires twin == Twin(rep, twin.tags)
    ensures DistinctIds([rep, twin])
  {
  }

  /** What the single step leaves: the twin retired, the survivor's tags as they were. */
  lemma PairStep(rep: Engram, twin: Engram, cfg: Config)
    requires Mergeable(rep, cfg) && twin == Twin(rep, twin.tags) && |MergedTags(rep, [twin])| == |rep.tags|
    ensures var m := PairVault(rep, twin);
            && Current(m, [rep, twin])
            && var r := StepCluster(Outcome(m, 0, 0, 0), [rep, twin], cfg, NO_FAULTS).engrams;
               r.Keys == {rep.id, twin.id} && r[rep.id].tags == rep.tags && !Live(r[twin.id])
  {
    hide SignatureOf, Dot;
    var m := PairVault(rep, twin);
    PairMembers(rep, twin, cfg);
    assert [twin][..0] == [];
    assert ArchiveAll(m, [], {}) == m;
    assert ArchiveAll(m, [twin], {}) == m[twin.id := twin.(state := STATE_ARCHIVED)];
  }

  lemma PairRun(rep: Engram, twin: Engram, cfg: Config)
    requires Mergeable(rep, cfg) && twin == Twin(rep, twin.tags) && |MergedTags(rep, [twin])| == |rep.tags|
    ensures WellFormed([rep.id, twin.id], PairVault(rep, twin))
    ensures var r := Run([rep.id, twin.id], PairVault(rep, twin), cfg, NO_FAULTS).engrams;
            r.Keys == {rep.id, twin.id} && r[rep.id].tags == rep.tags && !Live(r[twin.id])
  {
    PairClusters(rep, twin, cfg);
    PairStep(rep, twin, cfg);
    PairDistinct(rep, twin);
    hide StepCluster, PairVault, WellFormed, RunClusters, Twin;
    var cls, o := [[rep, twin]], Outcome(PairVault(rep, twin), 0, 0, 0);
    var r := StepCluster(o, cls[0], cfg, NO_FAULTS);
    StepOutside(o, cls[0], cfg, NO_FAULTS);
    StepReady(o, r, cls);
    assert cls[1..] == [];
    assert StepAll(r, [], cfg, NO_FAULTS) == r;
  }

  /** A vault that loses a tag without any fault, for every mergeable survivor whose tag
      list repeats a tag. */
  lemma RunLosesTag(rep: Engram, cfg: Config) returns (order: seq<Id>, m: Engrams)
    requires Mergeable(rep, cfg) && !NoDuplicates(rep.tags)
    ensures WellFormed(order, m) && |order| == 2
    ensures !(LiveTags(m) <= LiveTags(Run(order, m, cfg, NO_FAULTS).engrams))
  {
    var twin := LosesTags(rep);
    order, m := [rep.id, twin.id], PairVault(rep, twin);
    PairRun(rep, twin, cfg);
    hide Run, SignatureOf;
    var t := twin.tags[0];
    assert t in Elements(twin.tags);
    assert m[twin.id] == twin && Live(twin) && t in LiveTags(m);
    assert t !in Elements(rep.tags) && t !in rep.tags;
  }
}
