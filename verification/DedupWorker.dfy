/** The loops of phase 2, refining the functions of Dedup and DedupRuns. */
module DedupWorker {

  import opened Common
  import opened Similarity
  import opened Separation
  import opened Dedup
  import opened DedupRuns

  const PAGE_SIZE := 500

  function LiveInOrder(order: seq<Id>, m: Engrams): seq<Id>
    requires Elements(order) <= m.Keys
  {
    if order == [] then []
    else
      var init, last := order[..|order| - 1], order[|order| - 1];
      assert last in Elements(order) && Elements(init) <= Elements(order);
      LiveInOrder(init, m) + if Live(m[last]) then [last] else []
  }

  /** Page `p` is read exactly when all earlier pages are full. */
  predicate Reads(order: seq<Id>, p: nat) {
    p * PAGE_SIZE <= |order|
  }

  /** The scan fails when a page it reads does. */
  predicate ScanFails(order: seq<Id>, badPages: set<nat>) {
    exists p :: p in badPages && Reads(order, p)
  }

  /** Pages of PAGE_SIZE until a short one; retired engrams are skipped. */
  method ScanAllEngramIds(order: seq<Id>, m: Engrams, badPages: set<nat>) returns (ids: Option<seq<Id>>)
    requires Elements(order) <= m.Keys
    ensures ids == if ScanFails(order, badPages) then None else Some(LiveInOrder(order, m))
  {
    var all := [];
    var offset, page := 0, 0;
    while true
      invariant 0 <= offset == page * PAGE_SIZE <= |order|
      invariant forall p: nat | p < page :: p !in badPages
      invariant Elements(order[..offset]) <= m.Keys
      invariant all == LiveInOrder(order[..offset], m)
      decreases |order| - offset
    {
      if page in badPages {
        assert Reads(order, page);
        return None;
      }
      var end := Min(offset + PAGE_SIZE, |order|);
      for i := offset to end
        invariant Elements(order[..i]) <= m.Keys
        invariant all == LiveInOrder(order[..i], m)
      {
        assert order[..i + 1][..i] == order[..i];
        assert order[i] in Elements(order);
        assert Elements(order[..i + 1]) <= Elements(order);
        if Live(m[order[i]]) {
          all := all + [order[i]];
        }
      }
      if end - offset < PAGE_SIZE {
        assert order[..end] == order;
        return Some(all);
      }
      offset, page := offset + PAGE_SIZE, page + 1;
    }
  }

  lemma {:induction false} LiveInOrderIds(order: seq<Id>, m: Engrams)
    requires Elements(order) <= m.Keys
    ensures forall id :: id in LiveInOrder(order, m) <==> id in order && Live(m[id])
    ensures Elements(order) == m.Keys ==> (LiveInOrder(order, m) == [] <==> LiveIds(m) == {})
  {
    if order != [] {
      var init, last := order[..|order| - 1], order[|order| - 1];
      assert order == init + [last] && last in Elements(order) && Elements(init) <= Elements(order);
      LiveInOrderIds(init, m);
    }
    if Elements(order) == m.Keys {
      assert forall id :: id in LiveInOrder(order, m) <==> id in LiveIds(m);
      assert LiveInOrder(order, m) != [] ==> LiveInOrder(order, m)[0] in LiveInOrder(order, m);
    }
  }

  lemma {:induction false} CandidatesConcat(a: seq<Id>, b: seq<Id>, m: Engrams)
    requires Elements(a + b) <= m.Keys && Elements(a) <= m.Keys && Elements(b) <= m.Keys
    ensures Candidates(a + b, m) == Candidates(a, m) + Candidates(b, m)
  {
    if a == [] {
      assert a + b == b;
    } else {
      assert (a + b)[1..] == a[1..] + b;
      assert Elements(a[1..] + b) <= Elements(a + b) && Elements(a[1..]) <= Elements(a);
      CandidatesConcat(a[1..], b, m);
    }
  }

  /** Skipping retired engrams while scanning loses no candidate. */
  lemma {:induction false} ScanKeepsCandidates(order: seq<Id>, m: Engrams)
    requires Elements(order) <= m.Keys
    ensures Elements(LiveInOrder(order, m)) <= m.Keys
    ensures Candidates(LiveInOrder(order, m), m) == Candidates(order, m)
  {
    if order != [] {
      var init, last := order[..|order| - 1], order[|order| - 1];
      assert last in Elements(order) && Elements(init) <= Elements(order);
      ScanKeepsCandidates(init, m);
      assert order == init + [last];
      CandidatesConcat(init, [last], m);
      CandidatesConcat(LiveInOrder(init, m), if Live(m[last]) then [last] else [], m);
    }
  }

  ghost function Unclaimed(c: seq<Engram>, visited: set<Id>): seq<Engram> {
    if c == [] then []
    else if c[0].id in visited then Unclaimed(c[1..], visited)
    else [c[0]] + Unclaimed(c[1..], visited)
  }

  /** Marking what the seed claimed leaves exactly what is dissimilar to it. */
  lemma {:induction false} UnclaimedAfter(c: seq<Engram>, before: set<Id>, after: set<Id>, seed: Engram, t: real)
    requires t > 0.0
    requires forall e | e in c :: e.id in after <==> e.id in before || Meets(seed.embedding, e.embedding, t)
    ensures Unclaimed(c, after) == Dissimilar(seed, Unclaimed(c, before), t)
  {
    if c != [] {
      UnclaimedAfter(c[1..], before, after, seed, t);
      var rest := Unclaimed(c[1..], before);
      assert ([c[0]] + rest)[1..] == rest;
      assert c[0] in c;
    }
  }

  lemma {:induction false} UnclaimedNone(c: seq<Engram>)
    ensures Unclaimed(c, {}) == c
  {
    if c != [] {
      UnclaimedNone(c[1..]);
    }
  }

  lemma SimilarStep(seed: Engram, c: seq<Engram>, j: nat, visited: set<Id>, t: real)
    requires t > 0.0 && j < |c|
    ensures Similar(seed, Unclaimed(c[j..], visited), t) ==
            (if c[j].id !in visited && Meets(seed.embedding, c[j].embedding, t) then [c[j]] else []) +
            Similar(seed, Unclaimed(c[j + 1..], visited), t)
  {
  }

  lemma ClaimedTail(c: seq<Engram>, i: nat, before: set<Id>, after: set<Id>, t: real)
    requires t > 0.0 && i < |c|
    requires forall k | i < k < |c| :: c[k].id in after <==>
             c[k].id in before || Meets(c[i].embedding, c[k].embedding, t)
    ensures Unclaimed(c[i + 1..], after) == Dissimilar(c[i], Unclaimed(c[i + 1..], before), t)
  {
    forall e | e in c[i + 1..]
      ensures e.id in after <==> e.id in before || Meets(c[i].embedding, e.embedding, t)
    {
      var k :| 0 <= k < |c[i + 1..]| && c[i + 1..][k] == e;
      assert c[i + 1 + k] == e;
    }
    UnclaimedAfter(c[i + 1..], before, after, c[i], t);
  }

  lemma NoneSimilar(seed: Engram, visited: set<Id>, t: real)
    requires t > 0.0
    ensures Similar(seed, Unclaimed([], visited), t) == []
  {
  }

  /** One seed's inner loop: claim every unclaimed later engram that is similar. */
  method ClaimSimilar(c: seq<Engram>, i: nat, visited: set<Id>, t: real)
    returns (cluster: seq<Engram>, visited': set<Id>)
    requires t > 0.0 && DistinctIds(c) && i < |c| && c[i].id !in visited
    ensures cluster == [c[i]] + Similar(c[i], Unclaimed(c[i + 1..], visited), t)
    ensures Unclaimed(c[i + 1..], visited') == Dissimilar(c[i], Unclaimed(c[i + 1..], visited), t)
  {
    hide Meets, Similar, Unclaimed, Dissimilar;
    ghost var seed, tail := c[i], c[i + 1..];
    cluster, visited' := [c[i]], visited + {c[i].id};
    for j := i + 1 to |c|
      invariant cluster + Similar(seed, Unclaimed(c[j..], visited), t) ==
                [seed] + Similar(seed, Unclaimed(tail, visited), t)
      invariant forall k | i < k < j :: c[k].id in visited' <==>
                  c[k].id in visited || Meets(seed.embedding, c[k].embedding, t)
      invariant forall k | j <= k < |c| :: c[k].id in visited' <==> c[k].id in visited
    {
      SimilarStep(seed, c, j, visited, t);
      if c[j].id !in visited' {
        var similar := MeetsThreshold(c[i].embedding, c[j].embedding, t);
        if similar {
          cluster, visited' := cluster + [c[j]], visited' + {c[j].id};
        }
      }
    }
    assert c[|c|..] == [];
    NoneSimilar(seed, visited, t);
    ClaimedTail(c, i, visited, visited', t);
  }

  /** The pairwise clustering loops compute the greedy clusters. */
  method BuildClusters(c: seq<Engram>, t: real) returns (clusters: seq<seq<Engram>>)
    requires t > 0.0 && DistinctIds(c)
    ensures clusters == Clusters(c, t)
  {
    clusters := [];
    var visited: set<Id> := {};
    UnclaimedNone(c);
    assert c[0..] == c;
    for i := 0 to |c|
      invariant clusters + Clusters(Unclaimed(c[i..], visited), t) == Clusters(c, t)
    {
      assert c[i..][1..] == c[i + 1..];
      if c[i].id !in visited {
        ghost var rest := Unclaimed(c[i + 1..], visited);
        assert Unclaimed(c[i..], visited) == [c[i]] + rest;
        assert ([c[i]] + rest)[1..] == rest;
        var cluster;
        cluster, visited := ClaimSimilar(c, i, visited, t);
        if |cluster| > 1 {
          clusters := clusters + [cluster];
        }
      }
    }
    assert c[|c|..] == [];
  }

  method ElectRepresentative(c: seq<Engram>) returns (best: Option<Engram>)
    ensures best == Elect(c)
  {
    best := None;
    var maxScore := -1.0;
    for i := 0 to |c|
      invariant best == Elect(c[..i]) && maxScore == ScoreOf(best)
    {
      assert c[..i + 1][..i] == c[..i];
      var score := Score(c[i]);
      if score > maxScore {
        maxScore, best := score, Some(c[i]);
      }
    }
    assert c[..|c|] == c;
  }

  method Partition(rep: Engram, c: seq<Engram>) returns (absorbable: seq<Engram>, separated: nat)
    ensures absorbable == Absorbable(rep, c) && separated == SeparatedCount(rep, c)
  {
    absorbable, separated := [], 0;
    for i := 0 to |c|
      invariant absorbable == Absorbable(rep, c[..i]) && separated == SeparatedCount(rep, c[..i])
    {
      assert c[..i + 1][..i] == c[..i];
      if c[i].id != rep.id {
        var diverges := DivergesOnLoadBearingToken(rep.concept, rep.content, c[i].concept, c[i].content);
        if diverges {
          separated := separated + 1;
        } else {
          absorbable := absorbable + [c[i]];
        }
      }
    }
    assert c[..|c|] == c;
  }

  method CollectTags(acc: seq<string>, tags: seq<string>) returns (r: seq<string>)
    ensures r == AddTags(acc, tags)
  {
    r := acc;
    for i := 0 to |tags|
      invariant r == AddTags(acc, tags[..i])
    {
      assert tags[..i + 1][..i] == tags[..i];
      if tags[i] !in r {
        r := r + [tags[i]];
      }
    }
    assert tags[..|tags|] == tags;
  }

  method MergeTags(rep: Engram, members: seq<Engram>) returns (tags: seq<string>)
    ensures tags == MergedTags(rep, members)
  {
    tags := CollectTags([], rep.tags);
    for i := 0 to |members|
      invariant tags == MergedTags(rep, members[..i])
    {
      assert members[..i + 1][..i] == members[..i];
      tags := CollectTags(tags, members[i].tags);
    }
    assert members[..|members|] == members;
  }

  lemma NothingArchived(m: Engrams, faults: set<Id>)
    ensures ArchiveAll(m, [], faults) == m && ArchiveCount([], faults) == 0
  {
  }

  lemma ArchiveOneMore(m: Engrams, members: seq<Engram>, i: nat, faults: set<Id>)
    requires i < |members| && forall e | e in members :: e.id in m
    ensures (forall e | e in members[..i] :: e.id in m) && (forall e | e in members[..i + 1] :: e.id in m)
    ensures var id, before := members[i].id, ArchiveAll(m, members[..i], faults);
            ArchiveAll(m, members[..i + 1], faults) ==
            if id in faults then before else before[id := before[id].(state := STATE_ARCHIVED)]
    ensures ArchiveCount(members[..i + 1], faults) ==
            ArchiveCount(members[..i], faults) + if members[i].id in faults then 0 else 1
  {
    assert members[..i + 1][..i] == members[..i];
    assert forall e | e in members[..i + 1] :: e in members;
    assert forall e | e in members[..i] :: e in members;
  }

  class ConsolidationWorker {
    const order: seq<Id>
    const cfg: Config
    var engrams: Engrams
    var merged: nat
    var separated: nat
    var errors: nat
    var clusterCount: nat

    constructor (order: seq<Id>, engrams: Engrams, cfg: Config)
      requires WellFormed(order, engrams)
      ensures this.order == order && this.cfg == cfg && this.engrams == engrams
      ensures merged == 0 && separated == 0 && errors == 0 && clusterCount == 0
    {
      this.order, this.cfg, this.engrams := order, cfg, engrams;
      merged, separated, errors, clusterCount := 0, 0, 0, 0;
    }

    ghost function Report(): Outcome
      reads this
    {
      Outcome(engrams, merged, separated, errors)
    }

    /** Archive the members one by one; a failing call is skipped, not fatal. */
    method ArchiveMembers(members: seq<Engram>, faults: set<Id>) returns (n: nat)
      requires forall e | e in members :: e.id in engrams
      modifies this`engrams, this`merged
      ensures n == if cfg.dryRun then |members| else ArchiveCount(members, faults)
      ensures merged == old(merged) + n
      ensures engrams == if cfg.dryRun then old(engrams) else ArchiveAll(old(engrams), members, faults)
    {
      hide ArchiveAll, ArchiveCount;
      n := 0;
      ghost var m, start := engrams, merged;
      NothingArchived(m, faults);
      for i := 0 to |members|
        invariant forall e | e in members[..i] :: e.id in m
        invariant n == if cfg.dryRun then i else ArchiveCount(members[..i], faults)
        invariant merged == start + n
        invariant engrams == if cfg.dryRun then m else ArchiveAll(m, members[..i], faults)
      {
        var id := members[i].id;
        assert members[i] in members && id in m;
        assert forall e | e in members[..i + 1] :: e in members;
        ArchiveOneMore(m, members, i, faults);
        if !cfg.dryRun {
          if id in faults {
            continue;
          }
          engrams := engrams[id := engrams[id].(state := STATE_ARCHIVED)];
        }
        n, merged := n + 1, merged + 1;
      }
      assert members[..|members|] == members;
    }

    /** Persist the survivor when its tags or its access count changed. */
    method PersistSurvivor(rep: Engram, n: nat, tags: seq<string>, faults: Faults)
      requires rep.id in engrams
      modifies this`engrams, this`errors
      ensures var (m, e) := Persist(old(engrams), rep, n, tags, faults);
              engrams == m && errors == old(errors) + e
    {
      var changed := |tags| != |rep.tags|;
      if changed || n > 0 {
        if rep.id in faults.metadata {
          errors := errors + 1;
        } else {
          engrams := engrams[rep.id := engrams[rep.id].(state := rep.state, confidence := rep.confidence,
                             relevance := rep.relevance, accessCount := Bump(rep.accessCount, n))];
        }
        if changed {
          if rep.id in faults.tags {
            errors := errors + 1;
          } else {
            engrams := engrams[rep.id := engrams[rep.id].(tags := tags)];
          }
        }
      }
    }

    method TrimToBudget(absorbable: seq<Engram>) returns (r: seq<Engram>)
      ensures r == Trimmed(absorbable, cfg.maxDedup, merged)
    {
      var remaining := cfg.maxDedup - merged;
      r := absorbable;
      if remaining < |absorbable| {
        if remaining < 0 {
          remaining := 0;
        }
        r := absorbable[..remaining];
      }
    }

    method ProcessCluster(c: seq<Engram>, faults: Faults)
      requires Current(engrams, c)
      modifies this`engrams, this`merged, this`separated, this`errors
      ensures Report() == StepCluster(old(Report()), c, cfg, faults)
    {
      hide SignatureOf, Score;
      var elected := ElectRepresentative(c);
      if elected.None? {
        return;
      }
      var rep := elected.value;
      var absorbable, kept := Partition(rep, c);
      separated := separated + kept;
      AbsorbableMembers(rep, c);
      absorbable := TrimToBudget(absorbable);
      if |absorbable| == 0 {
        return;
      }
      var tags := MergeTags(rep, absorbable);
      var n := ArchiveMembers(absorbable, faults.archive);
      if !cfg.dryRun {
        PersistSurvivor(rep, n, tags, faults);
      }
    }

    /** The cluster loop, up to the cap. */
    method ProcessClusters(clusters: seq<seq<Engram>>, faults: Faults)
      requires Ready(engrams, clusters)
      modifies this`engrams, this`merged, this`separated, this`errors
      ensures Report() == StepAll(old(Report()), clusters, cfg, faults)
    {
      hide StepCluster, Current, Separate;
      ghost var final := StepAll(Report(), clusters, cfg, faults);
      assert clusters[0..] == clusters;
      for i := 0 to |clusters|
        invariant Ready(engrams, clusters[i..])
        invariant StepAll(Report(), clusters[i..], cfg, faults) == final
      {
        if merged >= cfg.maxDedup {
          return;
        }
        ghost var before, rest := Report(), clusters[i..];
        FirstReady(engrams, rest);
        ProcessCluster(clusters[i], faults);
        StepOutside(before, clusters[i], cfg, faults);
        StepReady(before, Report(), rest);
        assert rest[1..] == clusters[i + 1..];
      }
      assert clusters[|clusters|..] == [];
    }

    /** One run of phase 2 with a fresh report is Run of the vault; when the scan, or
        the fetch of what it found, fails, nothing is changed and nothing reported. */
    method RunPhase2Dedup(badPages: set<nat>, fetchFails: bool, faults: Faults) returns (ok: bool)
      requires WellFormed(order, engrams)
      modifies this
      ensures ok <==> !ScanFails(order, badPages) && (LiveIds(old(engrams)) == {} || !fetchFails)
      ensures Report() == if ok then Run(order, old(engrams), cfg, faults) else Outcome(old(engrams), 0, 0, 0)
      ensures clusterCount == if ok then |RunClusters(order, old(engrams), cfg)| else 0
    {
      hide StepCluster, Current, Separate, DistinctIds, SignatureOf, Meets;
      merged, separated, errors, clusterCount := 0, 0, 0, 0;
      var scanned := ScanAllEngramIds(order, engrams, badPages);
      if scanned.None? {
        return false;
      }
      var ids := scanned.value;
      LiveInOrderIds(order, engrams);
      if |ids| > 0 && fetchFails {
        return false;
      }
      ok := true;
      ScanKeepsCandidates(order, engrams);
      var withEmbed := Candidates(ids, engrams);
      CandidatesFacts(order, engrams);
      ghost var all := RunClusters(order, engrams, cfg);
      if |withEmbed| < 2 {
        FewHaveNoClusters(withEmbed, cfg.Threshold());
        return;
      }
      var clusters := BuildClusters(withEmbed, cfg.Threshold());
      clusterCount := |clusters|;
      ProcessClusters(clusters, faults);
    }
  }

  lemma FirstReady(m: Engrams, cls: seq<seq<Engram>>)
    requires Ready(m, cls) && cls != []
    ensures Current(m, cls[0]) && DistinctIds(cls[0])
  {
    assert cls[0] in cls;
  }

  lemma FewHaveNoClusters(c: seq<Engram>, t: real)
    requires t > 0.0 && |c| < 2
    ensures Clusters(c, t) == []
  {
  }
}
