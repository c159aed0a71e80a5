/** Phase 2 of the dream pass: greedy clustering of near-duplicate engrams and
    absorption of each cluster into its elected representative. This file gives the
    pass as functions of the vault and of the faults the store answers with;
    DedupWorker.dfy refines them by the loops of the source. */
module Dedup {

  import opened Common
  import opened Similarity
  import opened Separation

  const STATE_ARCHIVED: nat := 0x06
  const STATE_SOFT_DELETED: nat := 0x7F

  datatype Engram = Engram(
    id: Id, concept: string, content: string, state: nat, tags: seq<string>, accessCount: UInt32,
    relevance: real, confidence: real, embedding: Vector)

  type Engrams = map<Id, Engram>

  predicate Live(e: Engram) {
    e.state != STATE_ARCHIVED && e.state != STATE_SOFT_DELETED
  }

  function Sig(e: Engram): Signature {
    SignatureOf(e.concept, e.content)
  }

  datatype Config = Config(maxDedup: int, dryRun: bool, dedupThreshold: real) {
    /** 0.95 unless a positive threshold is configured. */
    function Threshold(): (t: real)
      ensures t > 0.0
    {
      if dedupThreshold > 0.0 then dedupThreshold else 0.95
    }
  }

  /** The engrams whose archive, metadata and tag writes fail in one run. */
  datatype Faults = Faults(archive: set<Id>, metadata: set<Id>, tags: set<Id>)

  datatype Outcome = Outcome(engrams: Engrams, merged: nat, separated: nat, errors: nat)

  /** `order` is the creation order in which the store scans the vault. */
  ghost predicate WellFormed(order: seq<Id>, m: Engrams) {
    && NoDuplicates(order)
    && Elements(order) == m.Keys
    && forall id | id in m :: m[id].id == id
  }

  // ---------- Clustering ----------

  /** Live engrams that have an embedding, in scan order. */
  function Candidates(order: seq<Id>, m: Engrams): seq<Engram>
    requires Elements(order) <= m.Keys
  {
    if order == [] then []
    else
      assert order[0] in Elements(order) && Elements(order[1..]) <= Elements(order);
      var e := m[order[0]];
      var rest := Candidates(order[1..], m);
      if Live(e) && e.embedding != [] then [e] + rest else rest
  }

  ghost function Similar(seed: Engram, c: seq<Engram>, t: real): seq<Engram>
    requires t > 0.0
  {
    if c == [] then []
    else
      var rest := Similar(seed, c[1..], t);
      if Meets(seed.embedding, c[0].embedding, t) then [c[0]] + rest else rest
  }

  ghost function Dissimilar(seed: Engram, c: seq<Engram>, t: real): (r: seq<Engram>)
    requires t > 0.0
    ensures |r| <= |c|
  {
    if c == [] then []
    else
      var rest := Dissimilar(seed, c[1..], t);
      if Meets(seed.embedding, c[0].embedding, t) then rest else [c[0]] + rest
  }

  /** The first unclaimed engram seeds a cluster and claims everything similar to
      it; clusters of one are not recorded. */
  ghost function Clusters(c: seq<Engram>, t: real): seq<seq<Engram>>
    requires t > 0.0
    decreases |c|
  {
    if c == [] then []
    else
      var cluster := [c[0]] + Similar(c[0], c[1..], t);
      var rest := Clusters(Dissimilar(c[0], c[1..], t), t);
      if |cluster| > 1 then [cluster] + rest else rest
  }

  // ---------- One cluster ----------

  function Score(e: Engram): real {
    e.relevance * e.confidence
  }

  function ScoreOf(best: Option<Engram>): real {
    if best.Some? then Score(best.value) else -1.0
  }

  /** The first member with the highest score above -1. */
  function Elect(c: seq<Engram>): (best: Option<Engram>)
    ensures best.Some? ==> best.value in c
  {
    if c == [] then None
    else
      var best := Elect(c[..|c| - 1]);
      var last := c[|c| - 1];
      if Score(last) > ScoreOf(best) then Some(last) else best
  }

  predicate Absorbs(rep: Engram, e: Engram) {
    e.id != rep.id && Sig(e) == Sig(rep)
  }

  function Absorbable(rep: Engram, c: seq<Engram>): seq<Engram> {
    if c == [] then []
    else
      var rest := Absorbable(rep, c[..|c| - 1]);
      if Absorbs(rep, c[|c| - 1]) then rest + [c[|c| - 1]] else rest
  }

  /** Members kept apart because a load-bearing token differs. */
  function SeparatedCount(rep: Engram, c: seq<Engram>): nat {
    if c == [] then 0
    else
      var last := c[|c| - 1];
      SeparatedCount(rep, c[..|c| - 1]) + if last.id != rep.id && Sig(last) != Sig(rep) then 1 else 0
  }

  /** What is left of a cluster's absorbable members under the hard per-run cap. */
  function Trimmed(absorbable: seq<Engram>, maxDedup: int, merged: nat): (r: seq<Engram>)
    ensures |r| == Min(|absorbable|, Max(0, maxDedup - merged))
    ensures r <= absorbable
  {
    var remaining := maxDedup - merged;
    if remaining < |absorbable| then absorbable[..Max(0, remaining)] else absorbable
  }

  /** The tags of `acc` and then each new one of `tags`, in first-occurrence order. */
  function AddTags(acc: seq<string>, tags: seq<string>): seq<string> {
    if tags == [] then acc
    else
      var r := AddTags(acc, tags[..|tags| - 1]);
      var last := tags[|tags| - 1];
      if last in r then r else r + [last]
  }

  function MergedTags(rep: Engram, members: seq<Engram>): seq<string> {
    if members == [] then AddTags([], rep.tags)
    else AddTags(MergedTags(rep, members[..|members| - 1]), members[|members| - 1].tags)
  }

  /** Archive every member whose archive call succeeds. */
  function ArchiveAll(m: Engrams, members: seq<Engram>, faults: set<Id>): (m': Engrams)
    requires forall e | e in members :: e.id in m
    ensures m'.Keys == m.Keys
  {
    if members == [] then m
    else
      var m' := ArchiveAll(m, members[..|members| - 1], faults);
      var id := members[|members| - 1].id;
      if id in faults then m' else m'[id := m'[id].(state := STATE_ARCHIVED)]
  }

  /** How many of those calls succeed. */
  function ArchiveCount(members: seq<Engram>, faults: set<Id>): (n: nat)
    ensures n <= |members|
    ensures faults == {} ==> n == |members|
  {
    if members == [] then 0
    else ArchiveCount(members[..|members| - 1], faults) + if members[|members| - 1].id in faults then 0 else 1
  }

  /** The survivor's new access count, in 32 bits. */
  function Bump(count: UInt32, n: nat): UInt32 {
    (count + n) % TWO_32
  }

  /** Write the survivor's metadata and, when its tag list grew, its tags. */
  function Persist(m: Engrams, rep: Engram, n: nat, tags: seq<string>, faults: Faults): (Engrams, nat)
    requires rep.id in m
  {
    var changed := |tags| != |rep.tags|;
    if !changed && n == 0 then (m, 0)
    else
      var (m', errors) :=
        if rep.id in faults.metadata then (m, 1)
        else (m[rep.id := m[rep.id].(state := rep.state, confidence := rep.confidence, relevance := rep.relevance,
                                     accessCount := Bump(rep.accessCount, n))], 0);
      if !changed then (m', errors)
      else if rep.id in faults.tags then (m', errors + 1)
      else (m'[rep.id := m'[rep.id].(tags := tags)], errors)
  }

  ghost predicate Current(m: Engrams, c: seq<Engram>) {
    forall e | e in c :: e.id in m && m[e.id] == e && Live(e)
  }

  lemma {:induction false} AbsorbableMembers(rep: Engram, c: seq<Engram>)
    ensures forall e :: e in Absorbable(rep, c) <==> e in c && Absorbs(rep, e)
  {
    if c != [] {
      AbsorbableMembers(rep, c[..|c| - 1]);
      assert c == c[..|c| - 1] + [c[|c| - 1]];
    }
  }

  ghost function StepCluster(o: Outcome, c: seq<Engram>, cfg: Config, faults: Faults): (r: Outcome)
    requires Current(o.engrams, c)
  {
    match Elect(c)
    case None => o
    case Some(rep) =>
      var all := Absorbable(rep, c);
      var members := Trimmed(all, cfg.maxDedup, o.merged);
      AbsorbableMembers(rep, c);
      var separated := o.separated + SeparatedCount(rep, c);
      if members == [] then o.(separated := separated)
      else if cfg.dryRun then o.(separated := separated, merged := o.merged + |members|)
      else
        var archived, n := ArchiveAll(o.engrams, members, faults.archive), ArchiveCount(members, faults.archive);
        var (persisted, errors) := Persist(archived, rep, n, MergedTags(rep, members), faults);
        Outcome(persisted, o.merged + n, separated, o.errors + errors)
  }

  // ---------- The effect of one cluster ----------

  /** `rep` absorbed `gone`: those are archived with the survivor's signature, the
      survivor changed at most its access count and tags, nothing else changed. */
  ghost predicate Merges(m: Engrams, m': Engrams, rep: Engram, gone: set<Id>) {
    && m'.Keys == m.Keys
    && rep.id in m && m[rep.id] == rep && Live(rep)
    && rep.id !in gone && gone <= m.Keys
    && (forall id | id in gone ::
          Live(m[id]) && Sig(m[id]) == Sig(rep) && m'[id] == m[id].(state := STATE_ARCHIVED))
    && (forall id | id in m && id !in gone && id != rep.id :: m'[id] == m[id])
    && m'[rep.id] == rep.(accessCount := m'[rep.id].accessCount, tags := m'[rep.id].tags)
  }

  ghost predicate DistinctIds(c: seq<Engram>) {
    forall i, j | 0 <= i < j < |c| :: c[i].id != c[j].id
  }

  ghost function Ids(c: seq<Engram>): set<Id> {
    set e | e in c :: e.id
  }

  lemma IdsSnoc(c: seq<Engram>)
    requires c != []
    ensures Ids(c) == Ids(c[..|c| - 1]) + {c[|c| - 1].id}
    ensures DistinctIds(c) ==> c[|c| - 1].id !in Ids(c[..|c| - 1])
  {
  }

  lemma {:induction false} ArchiveAllEffect(m: Engrams, members: seq<Engram>, faults: set<Id>)
    requires forall e | e in members :: e.id in m
    ensures forall id | id in m ::
              ArchiveAll(m, members, faults)[id] ==
              if id in Ids(members) - faults then m[id].(state := STATE_ARCHIVED) else m[id]
  {
    if members != [] {
      ArchiveAllEffect(m, members[..|members| - 1], faults);
      IdsSnoc(members);
    }
  }

  lemma {:induction false} ArchiveCountIds(members: seq<Engram>, faults: set<Id>)
    requires DistinctIds(members)
    ensures ArchiveCount(members, faults) == |Ids(members) - faults|
  {
    if members != [] {
      var ids, id := Ids(members[..|members| - 1]), members[|members| - 1].id;
      ArchiveCountIds(members[..|members| - 1], faults);
      IdsSnoc(members);
      OneMore(ids, id, faults);
    }
  }

  lemma OneMore(ids: set<Id>, id: Id, faults: set<Id>)
    requires id !in ids
    ensures |(ids + {id}) - faults| == |ids - faults| + if id in faults then 0 else 1
  {
    if id in faults {
      assert (ids + {id}) - faults == ids - faults;
    } else {
      assert (ids + {id}) - faults == (ids - faults) + {id};
    }
  }

  lemma {:induction false} AddTagsEffect(acc: seq<string>, tags: seq<string>)
    requires NoDuplicates(acc)
    ensures NoDuplicates(AddTags(acc, tags))
    ensures Elements(AddTags(acc, tags)) == Elements(acc) + Elements(tags)
  {
    if tags != [] {
      var init, last := tags[..|tags| - 1], tags[|tags| - 1];
      AddTagsEffect(acc, init);
      assert tags == init + [last];
      assert Elements(tags) == Elements(init) + {last};
      var r := AddTags(acc, init);
      assert last in Elements(r) <==> last in r;
      assert Elements(r + [last]) == Elements(r) + {last};
    }
  }

  ghost function TagsOf(members: seq<Engram>): set<string> {
    set e, t | e in members && t in e.tags :: t
  }

  lemma {:induction false} MergedTagsEffect(rep: Engram, members: seq<Engram>)
    ensures NoDuplicates(MergedTags(rep, members))
    ensures Elements(MergedTags(rep, members)) == Elements(rep.tags) + TagsOf(members)
  {
    if members == [] {
      AddTagsEffect([], rep.tags);
    } else {
      var init, last := members[..|members| - 1], members[|members| - 1];
      assert members == init + [last];
      MergedTagsEffect(rep, init);
      AddTagsEffect(MergedTags(rep, init), last.tags);
      assert TagsOf(members) == TagsOf(init) + Elements(last.tags);
    }
  }

  /** With a duplicate-free tag list, an unchanged length means an unchanged set. */
  lemma {:induction false} SameLengthSameTags(rep: Engram, members: seq<Engram>)
    requires NoDuplicates(rep.tags)
    requires |MergedTags(rep, members)| == |rep.tags|
    ensures TagsOf(members) <= Elements(rep.tags)
  {
    MergedTagsEffect(rep, members);
    DistinctLength(rep.tags);
    DistinctLength(MergedTags(rep, members));
    SubsetSize(Elements(rep.tags), Elements(MergedTags(rep, members)));
  }

  lemma {:induction false} AbsorbableDistinct(rep: Engram, c: seq<Engram>)
    requires DistinctIds(c)
    ensures DistinctIds(Absorbable(rep, c))
  {
    if c != [] {
      var init := c[..|c| - 1];
      AbsorbableDistinct(rep, init);
      AbsorbableMembers(rep, init);
      forall i | 0 <= i < |Absorbable(rep, init)|
        ensures Absorbable(rep, init)[i].id != c[|c| - 1].id
      {
        assert Absorbable(rep, init)[i] in init;
      }
    }
  }

  /** The members absorbed from a cluster in one step. */
  ghost function MembersOf(c: seq<Engram>, cfg: Config, merged: nat): seq<Engram> {
    match Elect(c)
    case None => []
    case Some(rep) => Trimmed(Absorbable(rep, c), cfg.maxDedup, merged)
  }

  lemma {:induction false} MembersOfCluster(c: seq<Engram>, cfg: Config, merged: nat)
    requires DistinctIds(c) && Elect(c).Some?
    ensures DistinctIds(MembersOf(c, cfg, merged))
    ensures forall e | e in MembersOf(c, cfg, merged) :: e in c && Absorbs(Elect(c).value, e)
  {
    AbsorbableMembers(Elect(c).value, c);
    AbsorbableDistinct(Elect(c).value, c);
  }

  /** The survivor's write: its access count and its tags. */
  lemma {:induction false} PersistEffect(m: Engrams, rep: Engram, n: nat, members: seq<Engram>, faults: Faults)
    requires rep.id in m && m[rep.id] == rep
    ensures var m' := Persist(m, rep, n, MergedTags(rep, members), faults).0;
            && m'.Keys == m.Keys
            && (forall id | id in m && id != rep.id :: m'[id] == m[id])
            && m'[rep.id] == rep.(accessCount := m'[rep.id].accessCount, tags := m'[rep.id].tags)
            && (rep.id !in faults.metadata ==>
                  m'[rep.id].accessCount == Bump(rep.accessCount, n))
            && (NoDuplicates(rep.tags) ==> NoDuplicates(m'[rep.id].tags))
            && (NoDuplicates(rep.tags) && rep.id !in faults.tags ==>
                  Elements(rep.tags) + TagsOf(members) <= Elements(m'[rep.id].tags))
  {
    assert n == 0 ==> Bump(rep.accessCount, n) == rep.accessCount;
    hide NoDuplicates, TagsOf, Bump;
    MergedTagsEffect(rep, members);
    if NoDuplicates(rep.tags) && |MergedTags(rep, members)| == |rep.tags| {
      SameLengthSameTags(rep, members);
    }
  }

  /** Some absorbed member has a tag the survivor lacks. */
  ghost predicate BringsTags(rep: Engram, members: seq<Engram>) {
    !(TagsOf(members) <= Elements(rep.tags))
  }

  /** On duplicate-free tags the length tells. */
  lemma NewTagsShow(rep: Engram, members: seq<Engram>)
    requires NoDuplicates(rep.tags)
    ensures |MergedTags(rep, members)| != |rep.tags| <==> BringsTags(rep, members)
    ensures !BringsTags(rep, members) ==> Elements(rep.tags) == Elements(rep.tags) + TagsOf(members)
  {
    var tags, own, news := MergedTags(rep, members), Elements(rep.tags), TagsOf(members);
    MergedTagsEffect(rep, members);
    DistinctLength(rep.tags);
    DistinctLength(tags);
    assert Elements(tags) == own + news;
    hide NoDuplicates, TagsOf, Elements, MergedTags;
    UnionSize(own, news);
  }

  lemma UnionSize(a: set<string>, b: set<string>)
    ensures |a + b| != |a| <==> !(b <= a)
    ensures b <= a ==> a == a + b
  {
    SubsetSize(a, a + b);
    if b <= a {
      assert a + b == a;
    } else {
      var x :| x in b && x !in a;
      assert x in a + b;
    }
  }

  lemma PersistWrites(m: Engrams, rep: Engram, n: nat, tags: seq<string>, faults: Faults)
    requires rep.id in m && m[rep.id] == rep
    ensures var (m', errors) := Persist(m, rep, n, tags, faults);
            var grown := |tags| != |rep.tags|;
            && rep.id in m'
            && m'[rep.id].accessCount == (if rep.id in faults.metadata then rep.accessCount
                                          else (rep.accessCount + n) % 0x1_0000_0000)
            && m'[rep.id].tags == (if grown && rep.id !in faults.tags then tags else rep.tags)
            && errors == (if (n > 0 || grown) && rep.id in faults.metadata then 1 else 0)
                         + (if grown && rep.id in faults.tags then 1 else 0)
  {
    assert n == 0 ==> Bump(rep.accessCount, n) == rep.accessCount;
  }

  /** With duplicate-free tags, exactly: the tag list is rewritten only for a tag the survivor
      lacks, the metadata for that or a merge; each failing write counts one error and loses
      what it would have written. */
  lemma SurvivorWritten(m: Engrams, rep: Engram, n: nat, members: seq<Engram>, faults: Faults)
    requires rep.id in m && m[rep.id] == rep && NoDuplicates(rep.tags)
    ensures var (m', errors) := Persist(m, rep, n, MergedTags(rep, members), faults);
            && m'[rep.id].accessCount == (if rep.id in faults.metadata then rep.accessCount
                                          else (rep.accessCount + n) % 0x1_0000_0000)
            && Elements(m'[rep.id].tags) == (if rep.id in faults.tags then Elements(rep.tags)
                                             else Elements(rep.tags) + TagsOf(members))
            && errors == (if (n > 0 || BringsTags(rep, members)) && rep.id in faults.metadata then 1 else 0)
                         + (if BringsTags(rep, members) && rep.id in faults.tags then 1 else 0)
  {
    NewTagsShow(rep, members);
    MergedTagsEffect(rep, members);
    PersistWrites(m, rep, n, MergedTags(rep, members), faults);
    hide NoDuplicates, TagsOf, Elements, MergedTags, BringsTags, Persist;
  }

  /** The members of a cluster with another signature than the survivor. */
  ghost function Others(rep: Engram, c: seq<Engram>): set<Id> {
    set e | e in c && Sig(e) != Sig(rep) :: e.id
  }

  lemma OthersSnoc(rep: Engram, c: seq<Engram>)
    requires c != [] && DistinctIds(c)
    ensures var last := c[|c| - 1];
            && Others(rep, c) == Others(rep, c[..|c| - 1]) + (if Sig(last) != Sig(rep) then {last.id} else {})
            && last.id !in Others(rep, c[..|c| - 1])
  {
    IdsSnoc(c);
    assert c == c[..|c| - 1] + [c[|c| - 1]];
    hide Sig;
  }

  /** The separated count is the number of members with another signature. */
  lemma {:induction false} SeparatedAreOthers(rep: Engram, c: seq<Engram>)
    requires DistinctIds(c) && forall e | e in c && e.id == rep.id :: Sig(e) == Sig(rep)
    ensures SeparatedCount(rep, c) == |Others(rep, c)|
  {
    hide Sig, Others;
    if c == [] {
      NoOthers(rep);
    } else {
      SeparatedAreOthers(rep, c[..|c| - 1]);
      OthersSnoc(rep, c);
      assert c[|c| - 1] in c;
    }
  }

  lemma NoOthers(rep: Engram)
    ensures Others(rep, []) == {}
  {
  }

  /** A step that absorbs anything merges, and its report counts what it archived. */
  lemma {:induction false} StepMerges(o: Outcome, c: seq<Engram>, cfg: Config, faults: Faults)
    requires Current(o.engrams, c) && DistinctIds(c) && Elect(c).Some?
    requires !cfg.dryRun && MembersOf(c, cfg, o.merged) != []
    ensures var rep, members, r := Elect(c).value, MembersOf(c, cfg, o.merged), StepCluster(o, c, cfg, faults);
            var gone := Ids(members) - faults.archive;
            && Merges(o.engrams, r.engrams, rep, gone)
            && r.merged == o.merged + |gone|
  {
    var rep, members := Elect(c).value, MembersOf(c, cfg, o.merged);
    MembersOfCluster(c, cfg, o.merged);
    ArchiveAllEffect(o.engrams, members, faults.archive);
    ArchiveCountIds(members, faults.archive);
    var gone := Ids(members) - faults.archive;
    assert rep.id !in gone;
    var archived := ArchiveAll(o.engrams, members, faults.archive);
    assert archived[rep.id] == rep;
    PersistEffect(archived, rep, ArchiveCount(members, faults.archive), members, faults);
    forall id | id in gone
      ensures id in o.engrams && Live(o.engrams[id]) && Sig(o.engrams[id]) == Sig(rep)
    {
      var e :| e in members && e.id == id;
      assert e in c;
    }
  }

  /** What one cluster adds to the report: the members kept apart, dry run or not; and one
      error for each failing write of the survivor, when anything was absorbed. */
  lemma StepReports(o: Outcome, c: seq<Engram>, cfg: Config, faults: Faults)
    requires Current(o.engrams, c) && DistinctIds(c)
    ensures var r := StepCluster(o, c, cfg, faults);
            match Elect(c)
            case None => r == o
            case Some(rep) =>
              var members := MembersOf(c, cfg, o.merged);
              && r.separated == o.separated + |Others(rep, c)|
              && (cfg.dryRun || members == [] ==> r.engrams == o.engrams && r.errors == o.errors)
              && (!cfg.dryRun && members != [] && NoDuplicates(rep.tags) ==>
                    r.errors == o.errors
                      + (if (!(Ids(members) <= faults.archive) || BringsTags(rep, members))
                           && rep.id in faults.metadata then 1 else 0)
                      + (if BringsTags(rep, members) && rep.id in faults.tags then 1 else 0))
  {
    if Elect(c).Some? {
      var rep, members := Elect(c).value, MembersOf(c, cfg, o.merged);
      assert forall e | e in c && e.id == rep.id :: e == rep;
      SeparatedAreOthers(rep, c);
      MembersOfCluster(c, cfg, o.merged);
      if members != [] {
        ArchiveAllEffect(o.engrams, members, faults.archive);
        ArchiveCountIds(members, faults.archive);
        var archived, n := ArchiveAll(o.engrams, members, faults.archive), ArchiveCount(members, faults.archive);
        assert n == 0 <==> Ids(members) - faults.archive == {};
        assert archived[rep.id] == rep;
        if NoDuplicates(rep.tags) {
          SurvivorWritten(archived, rep, n, members, faults);
        }
      }
      hide Others, SeparatedCount, Absorbable, Persist, MergedTags, BringsTags, NoDuplicates, Ids, Sig;
    }
  }

  // ---------- What a merge keeps ----------

  /** The facts the vault still serves: signatures of its live engrams. */
  ghost function LiveSignatures(m: Engrams): set<Signature> {
    set id | id in m && Live(m[id]) :: Sig(m[id])
  }

  ghost function LiveTags(m: Engrams): set<string> {
    set id, t | id in m && Live(m[id]) && t in m[id].tags :: t
  }

  ghost function LiveIds(m: Engrams): set<Id> {
    set id | id in m && Live(m[id])
  }

  ghost function ArchivedIds(m: Engrams): set<Id> {
    set id | id in m && m[id].state == STATE_ARCHIVED
  }

  ghost function TotalAccess(order: seq<Id>, m: Engrams): nat {
    if order == [] then 0
    else (if order[0] in m then m[order[0]].accessCount else 0) + TotalAccess(order[1..], m)
  }

  ghost predicate TagListsDistinct(m: Engrams) {
    forall id | id in m && Live(m[id]) :: NoDuplicates(m[id].tags)
  }

  lemma {:induction false} MergesKeepsSignatures(m: Engrams, m': Engrams, rep: Engram, gone: set<Id>)
    requires Merges(m, m', rep, gone)
    ensures LiveSignatures(m') == LiveSignatures(m)
  {
  }

  lemma {:induction false} MergesMovesIds(m: Engrams, m': Engrams, rep: Engram, gone: set<Id>)
    requires Merges(m, m', rep, gone)
    ensures gone <= LiveIds(m)
    ensures |LiveIds(m')| == |LiveIds(m)| - |gone|
    ensures |ArchivedIds(m')| == |ArchivedIds(m)| + |gone|
  {
    hide SignatureOf;
    assert LiveIds(m') == LiveIds(m) - gone && gone <= LiveIds(m);
    assert ArchivedIds(m') == ArchivedIds(m) + gone && ArchivedIds(m) !! gone;
    MoveSizes(LiveIds(m), ArchivedIds(m), gone);
  }

  lemma MoveSizes<T>(from: set<T>, to: set<T>, moved: set<T>)
    requires moved <= from && moved !! to
    ensures |from - moved| == |from| - |moved|
    ensures |to + moved| == |to| + |moved|
  {
  }

  lemma {:induction false} TotalAccessUpdate(order: seq<Id>, m: Engrams, m': Engrams, id: Id, n: int)
    requires NoDuplicates(order) && m.Keys == m'.Keys && id in m
    requires m'[id].accessCount == m[id].accessCount + n
    requires forall k | k in m && k != id :: m'[k].accessCount == m[k].accessCount
    ensures TotalAccess(order, m') == TotalAccess(order, m) + if id in order then n else 0
  {
    if order != [] {
      TotalAccessUpdate(order[1..], m, m', id, n);
    }
  }
}
