/** Contradiction detection: which relation types are incompatible, and why a
    contradiction is penalised at most once however often it is observed. */
module Contradiction {

  import opened Common
  import opened LtpCounters
  import opened Hebbian

  const REL_TYPES := 64

  predicate Opposed(a: int, b: int) {
    (a == 1 && b == 2) || (a == 8 && b == 9)
  }

  predicate Contradicts(a: int, b: int) {
    Opposed(a, b) || Opposed(b, a)
  }

  method SetContra(m: array2<bool>, a: nat, b: nat)
    requires m.Length0 == m.Length1 == REL_TYPES
    modifies m
    ensures forall i, j | 0 <= i < REL_TYPES && 0 <= j < REL_TYPES ::
              m[i, j] == (old(m[i, j]) || (i == a && j == b) || (i == b && j == a))
  {
    if a < REL_TYPES && b < REL_TYPES {
      m[a, b] := true;
      m[b, a] := true;
    }
  }

  /** The matrix the package initialises. */
  method BuildMatrix() returns (m: array2<bool>)
    ensures fresh(m) && m.Length0 == m.Length1 == REL_TYPES
    ensures forall i, j | 0 <= i < REL_TYPES && 0 <= j < REL_TYPES :: m[i, j] <==> Contradicts(i, j)
    ensures forall i, j | 0 <= i < REL_TYPES && 0 <= j < REL_TYPES ::
              m[i, j] <==> (i, j) in {(1, 2), (2, 1), (8, 9), (9, 8)}
  {
    m := new bool[REL_TYPES, REL_TYPES]((i, j) => false);
    SetContra(m, 1, 2);
    SetContra(m, 8, 9);
  }

  function Severity(a: nat, b: nat): real {
    if a < REL_TYPES && b < REL_TYPES && Contradicts(a, b) then
      if (a == 1 && b == 2) || (a == 2 && b == 1) then 1.0 else 0.9
    else
      0.0
  }

  /** The lookup in the matrix is the symmetric relation, and no relation type
      contradicts itself. */
  method LookupSeverity(m: array2<bool>, a: nat, b: nat) returns (s: real)
    requires m.Length0 == m.Length1 == REL_TYPES
    requires forall i, j | 0 <= i < REL_TYPES && 0 <= j < REL_TYPES :: m[i, j] <==> Contradicts(i, j)
    ensures s == Severity(a, b) == Severity(b, a)
    ensures s > 0.0 <==> Contradicts(a, b)
    ensures s == 1.0 <==> (a, b) in {(1, 2), (2, 1)}
    ensures s == 0.9 <==> (a, b) in {(8, 9), (9, 8)}
    ensures s in {0.0, 0.9, 1.0} && (a == b ==> s == 0.0)
  {
    if a < REL_TYPES && b < REL_TYPES && m[a, b] {
      if (a == 1 && b == 2) || (a == 2 && b == 1) {
        return 1.0;
      }
      return 0.9;
    }
    return 0.0;
  }

  // ---------- Observations ----------

  datatype Assoc = Assoc(target: Id, relType: nat)
  datatype Item = Item(ws: Workspace, associations: seq<Assoc>, notify: bool)

  /** A marker of the store: an unordered pair within a vault. */
  datatype Flag = Flag(ws: Workspace, pair: PairKey)

  datatype Observation = Observation(flag: Flag, notify: bool)

  function ObserveEach(item: Item, x: Assoc, ys: seq<Assoc>): seq<Observation> {
    if ys == [] then []
    else if Severity(x.relType, ys[0].relType) > 0.0 then
      [Observation(Flag(item.ws, CanonicalPair(x.target, ys[0].target)), item.notify)] + ObserveEach(item, x, ys[1..])
    else ObserveEach(item, x, ys[1..])
  }

  function ObservePairs(item: Item, xs: seq<Assoc>): seq<Observation> {
    if xs == [] then [] else ObserveEach(item, xs[0], xs[1..]) + ObservePairs(item, xs[1..])
  }

  function Observations(batch: seq<Item>): seq<Observation> {
    if batch == [] then [] else ObservePairs(batch[0], batch[0].associations) + Observations(batch[1..])
  }

  // ---------- The worker ----------

  /** The flag calls that fail, and whether each had already written its marker. */
  type Faults = map<nat, bool>

  /** The markers of the store, the penalties sent, and how many flag calls were made. */
  datatype State = State(flagged: set<Flag>, penalties: seq<Flag>, calls: nat)

  function Observe(s: State, o: Observation, faults: Faults): State {
    var s' := s.(calls := s.calls + 1);
    if o.flag in s.flagged then s'
    else if s.calls in faults then (if faults[s.calls] then s'.(flagged := s.flagged + {o.flag}) else s')
    else s'.(flagged := s.flagged + {o.flag}, penalties := if o.notify then s.penalties + [o.flag] else s.penalties)
  }

  function ObserveAll(s: State, os: seq<Observation>, faults: Faults): State
    decreases |os|
  {
    if os == [] then s else ObserveAll(Observe(s, os[0], faults), os[1..], faults)
  }

  lemma {:induction false} ObserveConcat(s: State, a: seq<Observation>, b: seq<Observation>, faults: Faults)
    ensures ObserveAll(s, a + b, faults) == ObserveAll(ObserveAll(s, a, faults), b, faults)
    decreases |a|
  {
    if a == [] {
      assert a + b == b;
    } else {
      assert (a + b)[1..] == a[1..] + b;
      ObserveConcat(Observe(s, a[0], faults), a[1..], b, faults);
    }
  }

  class ContradictWorker {
    var flagged: set<Flag>
    var penalties: seq<Flag>
    var calls: nat

    ghost function View(): State
      reads this
    {
      State(flagged, penalties, calls)
    }

    constructor (flagged: set<Flag>)
      ensures View() == State(flagged, [], 0)
    {
      this.flagged, penalties, calls := flagged, [], 0;
    }

    /** The store's side: writes the marker and reports truthfully whether it is new; a
        failing call may or may not have written it. */
    method FlagContradiction(flag: Flag, faults: Faults) returns (newly: bool, failed: bool)
      modifies this`flagged, this`calls
      ensures calls == old(calls) + 1
      ensures failed <==> old(calls) in faults
      ensures !failed ==> (newly <==> flag !in old(flagged)) && flagged == old(flagged) + {flag}
      ensures failed ==> flagged == old(flagged) + if faults[old(calls)] then {flag} else {}
    {
      failed := calls in faults;
      newly := flag !in flagged;
      if !failed || faults[calls] {
        flagged := flagged + {flag};
      }
      calls := calls + 1;
    }

    method CheckPair(item: Item, x: Assoc, y: Assoc, m: array2<bool>, faults: Faults)
      requires m.Length0 == m.Length1 == REL_TYPES
      requires forall i, j | 0 <= i < REL_TYPES && 0 <= j < REL_TYPES :: m[i, j] <==> Contradicts(i, j)
      modifies this
      ensures View() == if Severity(x.relType, y.relType) > 0.0 then
                          var flag := Flag(item.ws, CanonicalPair(x.target, y.target));
                          Observe(old(View()), Observation(flag, item.notify), faults)
                        else old(View())
    {
      var severity := LookupSeverity(m, x.relType, y.relType);
      if severity > 0.0 {
        var pair := ComputeCanonicalPair(x.target, y.target);
        ghost var before := flagged;
        var newly, failed := FlagContradiction(Flag(item.ws, pair), faults);
        if failed || !newly {
          assert Flag(item.ws, pair) in before ==> before + {Flag(item.ws, pair)} == before;
          return;
        }
        if item.notify {
          penalties := penalties + [Flag(item.ws, pair)];
        }
      }
    }

    method CheckItem(item: Item, m: array2<bool>, faults: Faults)
      requires m.Length0 == m.Length1 == REL_TYPES
      requires forall i, j | 0 <= i < REL_TYPES && 0 <= j < REL_TYPES :: m[i, j] <==> Contradicts(i, j)
      modifies this
      ensures View() == ObserveAll(old(View()), ObservePairs(item, item.associations), faults)
    {
      hide Observe, Severity, CanonicalPair, Contradicts;
      ghost var start := View();
      var xs := item.associations;
      ghost var all := ObserveAll(start, ObservePairs(item, xs), faults);
      assert xs[0..] == xs;
      for i := 0 to |xs|
        invariant ObserveAll(View(), ObservePairs(item, xs[i..]), faults) == all
      {
        assert xs[i..][1..] == xs[i + 1..];
        ghost var rest := ObservePairs(item, xs[i + 1..]);
        ObserveConcat(View(), ObserveEach(item, xs[i], xs[i + 1..]), rest, faults);
        ghost var target := ObserveAll(View(), ObserveEach(item, xs[i], xs[i + 1..]), faults);
        for j := i + 1 to |xs|
          invariant ObserveAll(View(), ObserveEach(item, xs[i], xs[j..]), faults) == target
        {
          assert xs[j..][1..] == xs[j + 1..];
          ghost var o := Observation(Flag(item.ws, CanonicalPair(xs[i].target, xs[j].target)), item.notify);
          ghost var later := ObserveEach(item, xs[i], xs[j + 1..]);
          assert ([o] + later)[1..] == later;
          CheckPair(item, xs[i], xs[j], m, faults);
        }
        assert xs[|xs|..] == [];
      }
      assert xs[|xs|..] == [];
    }

    method ProcessBatch(batch: seq<Item>, faults: Faults)
      modifies this
      ensures View() == ObserveAll(old(View()), Observations(batch), faults)
    {
      hide ObservePairs, Contradicts;
      var m := BuildMatrix();
      ghost var all := ObserveAll(View(), Observations(batch), faults);
      assert batch[0..] == batch;
      for i := 0 to |batch|
        invariant ObserveAll(View(), Observations(batch[i..]), faults) == all
        invariant m.Length0 == m.Length1 == REL_TYPES
        invariant forall i, j | 0 <= i < REL_TYPES && 0 <= j < REL_TYPES :: m[i, j] <==> Contradicts(i, j)
      {
        assert batch[i..][1..] == batch[i + 1..];
        ObserveConcat(View(), ObservePairs(batch[i], batch[i].associations), Observations(batch[i + 1..]), faults);
        CheckItem(batch[i], m, faults);
      }
      assert batch[|batch|..] == [];
    }
  }

  // ---------- Which contradictions a batch reports ----------

  /** Two associations of one item whose types are 1 and 2 or 8 and 9, either way round. */
  ghost predicate Clash(item: Item, i: int, j: int) {
    && 0 <= i < j < |item.associations|
    && (item.associations[i].relType, item.associations[j].relType) in {(1, 2), (2, 1), (8, 9), (9, 8)}
  }

  function FlagFor(ws: Workspace, x: Assoc, y: Assoc): Flag {
    Flag(ws, CanonicalPair(x.target, y.target))
  }

  ghost predicate Reported(os: seq<Observation>, f: Flag) {
    exists k :: 0 <= k < |os| && os[k].flag == f
  }

  lemma ReportedConcat(a: seq<Observation>, b: seq<Observation>, f: Flag)
    ensures Reported(a + b, f) <==> Reported(a, f) || Reported(b, f)
  {
    assert forall k | 0 <= k < |a| :: (a + b)[k] == a[k];
    assert forall k | 0 <= k < |b| :: (a + b)[|a| + k] == b[k];
  }

  lemma SeverityMeans(a: nat, b: nat)
    ensures Severity(a, b) > 0.0 <==> (a, b) in {(1, 2), (2, 1), (8, 9), (9, 8)}
  {
  }

  ghost predicate ClashWith(item: Item, x: Assoc, ys: seq<Assoc>, f: Flag, j: int) {
    0 <= j < |ys| && Severity(x.relType, ys[j].relType) > 0.0 && f == FlagFor(item.ws, x, ys[j])
  }

  lemma {:induction false} EachReported(item: Item, x: Assoc, ys: seq<Assoc>, f: Flag)
    ensures Reported(ObserveEach(item, x, ys), f) <==> exists j :: ClashWith(item, x, ys, f, j)
  {
    hide Severity, CanonicalPair, Reported;
    if ys == [] {
      NothingReported(f);
    } else {
      var tail := ys[1..];
      EachReported(item, x, tail, f);
      assert forall j | ClashWith(item, x, tail, f, j) :: ClashWith(item, x, ys, f, j + 1);
      assert forall j | ClashWith(item, x, ys, f, j) && j > 0 :: ClashWith(item, x, tail, f, j - 1);
      if Severity(x.relType, ys[0].relType) > 0.0 {
        var o := Observation(FlagFor(item.ws, x, ys[0]), item.notify);
        ReportedConcat([o], ObserveEach(item, x, tail), f);
        OneReported(o, f);
        assert o.flag == f ==> ClashWith(item, x, ys, f, 0);
      }
    }
  }

  lemma OneReported(o: Observation, f: Flag)
    ensures Reported([o], f) <==> o.flag == f
  {
    assert [o][0] == o;
  }

  lemma NothingReported(f: Flag)
    ensures !Reported([], f)
  {
  }

  ghost predicate ClashIn(item: Item, xs: seq<Assoc>, f: Flag, i: int, j: int) {
    0 <= i < j < |xs| && Severity(xs[i].relType, xs[j].relType) > 0.0 && f == FlagFor(item.ws, xs[i], xs[j])
  }

  lemma {:induction false} PairsReported(item: Item, xs: seq<Assoc>, f: Flag)
    ensures Reported(ObservePairs(item, xs), f) <==> exists i, j :: ClashIn(item, xs, f, i, j)
  {
    hide Severity, CanonicalPair, Reported, ObserveEach;
    if xs == [] {
      NothingReported(f);
    } else {
      var tail := xs[1..];
      PairsReported(item, tail, f);
      EachReported(item, xs[0], tail, f);
      ReportedConcat(ObserveEach(item, xs[0], tail), ObservePairs(item, tail), f);
      assert forall i, j | ClashIn(item, tail, f, i, j) :: ClashIn(item, xs, f, i + 1, j + 1);
      assert forall i, j | ClashIn(item, xs, f, i, j) && i > 0 :: ClashIn(item, tail, f, i - 1, j - 1);
      assert forall j | ClashWith(item, xs[0], tail, f, j) :: ClashIn(item, xs, f, 0, j + 1);
      assert forall j | ClashIn(item, xs, f, 0, j) :: ClashWith(item, xs[0], tail, f, j - 1);
    }
  }

  /** Associations `i` and `j` of item `n` of the batch clash, and make up this marker. */
  ghost predicate ClashOf(batch: seq<Item>, f: Flag, n: int, i: int, j: int) {
    && 0 <= n < |batch| && Clash(batch[n], i, j)
    && f == FlagFor(batch[n].ws, batch[n].associations[i], batch[n].associations[j])
  }

  lemma ItemReported(item: Item, f: Flag)
    ensures Reported(ObservePairs(item, item.associations), f) <==>
            exists i, j :: Clash(item, i, j) && f == FlagFor(item.ws, item.associations[i], item.associations[j])
  {
    PairsReported(item, item.associations, f);
    forall i, j
      ensures ClashIn(item, item.associations, f, i, j) <==>
              Clash(item, i, j) && f == FlagFor(item.ws, item.associations[i], item.associations[j])
    {
      if 0 <= i < j < |item.associations| {
        SeverityMeans(item.associations[i].relType, item.associations[j].relType);
      }
    }
    hide ObservePairs, Severity, CanonicalPair, Reported;
  }

  /** A batch reports a pair exactly when two associations of one item clash over it. */
  lemma {:induction false} BatchReports(batch: seq<Item>, f: Flag)
    ensures Reported(Observations(batch), f) <==> exists n, i, j :: ClashOf(batch, f, n, i, j)
  {
    hide ObservePairs, FlagFor, Reported;
    if batch == [] {
      NothingReported(f);
    } else {
      var tail := batch[1..];
      BatchReports(tail, f);
      ItemReported(batch[0], f);
      ReportedConcat(ObservePairs(batch[0], batch[0].associations), Observations(tail), f);
      assert forall n, i, j | ClashOf(tail, f, n, i, j) :: ClashOf(batch, f, n + 1, i, j);
      assert forall n, i, j | ClashOf(batch, f, n, i, j) && n > 0 :: ClashOf(tail, f, n - 1, i, j);
      if i, j :| Clash(batch[0], i, j)
                 && f == FlagFor(batch[0].ws, batch[0].associations[i], batch[0].associations[j]) {
        assert ClashOf(batch, f, 0, i, j);
      }
    }
  }

  /** Call number `n` leaves its marker: it succeeds, or fails after writing it. */
  predicate Writes(faults: Faults, n: nat) {
    n !in faults || faults[n]
  }

  /** Observation `k` leaves the marker of `f`. */
  ghost predicate Leaves(s: State, os: seq<Observation>, faults: Faults, f: Flag, k: int) {
    0 <= k < |os| && os[k].flag == f && Writes(faults, s.calls + k)
  }

  /** Observation `k` is the first to leave the marker of `f`, and tells its caller. */
  ghost predicate Penalises(s: State, os: seq<Observation>, faults: Faults, f: Flag, k: int) {
    && f !in s.flagged && Leaves(s, os, faults, f, k) && s.calls + k !in faults && os[k].notify
    && forall i | 0 <= i < k :: !Leaves(s, os, faults, f, i)
  }

  /** Whatever calls fail: the markers afterwards are the old ones and those left by some
      observation; a pair is penalised exactly when the first observation to leave its
      marker succeeds and notifies. */
  lemma {:induction false} ObservedMarkers(s: State, os: seq<Observation>, faults: Faults, f: Flag)
    ensures var s' := ObserveAll(s, os, faults);
            && s'.calls == s.calls + |os|
            && (f in s'.flagged <==> f in s.flagged || exists k :: Leaves(s, os, faults, f, k))
            && (f in s'.penalties <==> f in s.penalties || exists k :: Penalises(s, os, faults, f, k))
    decreases |os|
  {
    if os != [] {
      var t, tail := Observe(s, os[0], faults), os[1..];
      ObservedMarkers(t, tail, faults, f);
      assert t.calls == s.calls + 1;
      assert forall k | Leaves(t, tail, faults, f, k) :: Leaves(s, os, faults, f, k + 1);
      assert forall k | Leaves(s, os, faults, f, k) && k > 0 :: Leaves(t, tail, faults, f, k - 1);
      assert f in t.flagged <==> f in s.flagged || Leaves(s, os, faults, f, 0);
      assert f in t.penalties <==> f in s.penalties || Penalises(s, os, faults, f, 0);
      hide Leaves, ObserveAll;
      PenalisesLater(s, os, faults, f, t);
    }
  }

  lemma PenalisesLater(s: State, os: seq<Observation>, faults: Faults, f: Flag, t: State)
    requires os != [] && t.calls == s.calls + 1
    requires f in t.flagged <==> f in s.flagged || Leaves(s, os, faults, f, 0)
    ensures (exists k :: Penalises(t, os[1..], faults, f, k)) <==> exists k :: k > 0 && Penalises(s, os, faults, f, k)
  {
    var tail := os[1..];
    forall k
      ensures Leaves(t, tail, faults, f, k) <==> k >= 0 && Leaves(s, os, faults, f, k + 1)
    {
    }
    hide Leaves;
    forall k | Penalises(t, tail, faults, f, k)
      ensures Penalises(s, os, faults, f, k + 1)
    {
      forall i | 0 <= i < k + 1
        ensures !Leaves(s, os, faults, f, i)
      {
        assert i > 0 ==> !Leaves(t, tail, faults, f, i - 1);
      }
    }
    forall k | k > 0 && Penalises(s, os, faults, f, k)
      ensures Penalises(t, tail, faults, f, k - 1)
    {
      assert Leaves(s, os, faults, f, (k - 1) + 1);
      forall i | 0 <= i < k - 1
        ensures !Leaves(t, tail, faults, f, i)
      {
        assert !Leaves(s, os, faults, f, i + 1);
      }
    }
  }

  /** Without faults the markers after a batch are those before it and exactly the pairs
      that clash in it. */
  lemma BatchFlags(s: State, batch: seq<Item>, f: Flag)
    ensures f in ObserveAll(s, Observations(batch), map[]).flagged <==>
            f in s.flagged || exists n, i, j :: ClashOf(batch, f, n, i, j)
  {
    var os := Observations(batch);
    ObservedMarkers(s, os, map[], f);
    BatchReports(batch, f);
    hide Observations, ObserveAll, ClashOf;
    assert forall k | 0 <= k < |os| && os[k].flag == f :: Leaves(s, os, map[], f, k);
  }

  // ---------- One penalty per contradiction ----------

  /** Penalties sent so far are distinct, flagged, and were not flagged at the start. */
  ghost predicate Once(start: set<Flag>, s: State) {
    && NoDuplicates(s.penalties)
    && start <= s.flagged
    && forall i | 0 <= i < |s.penalties| :: s.penalties[i] in s.flagged && s.penalties[i] !in start
  }

  lemma {:induction false} PenalisedOnce(start: set<Flag>, s: State, os: seq<Observation>, faults: Faults)
    requires Once(start, s)
    ensures Once(start, ObserveAll(s, os, faults))
    decreases |os|
  {
    if os != [] {
      PenalisedOnce(start, Observe(s, os[0], faults), os[1..], faults);
    }
  }

  function Batches(s: State, batches: seq<seq<Item>>, faults: Faults): State
    decreases |batches|
  {
    if batches == [] then s else Batches(ObserveAll(s, Observations(batches[0]), faults), batches[1..], faults)
  }

  /** Over any number of batches, with any flag calls failing, no contradiction is
      penalised twice, and none that was already known. */
  lemma {:induction false} ReobservationIsFree(start: set<Flag>, s: State, batches: seq<seq<Item>>, faults: Faults)
    requires Once(start, s)
    ensures Once(start, Batches(s, batches, faults))
    decreases |batches|
  {
    if batches != [] {
      PenalisedOnce(start, s, Observations(batches[0]), faults);
      ReobservationIsFree(start, ObserveAll(s, Observations(batches[0]), faults), batches[1..], faults);
    }
  }

  /** With callbacks wired and no failing call leaving a marker, exactly the newly
      flagged contradictions are penalised. */
  lemma {:induction false} PenaltiesAreNewFlags(start: set<Flag>, s: State, os: seq<Observation>, faults: Faults)
    requires Once(start, s) && s.flagged == start + Elements(s.penalties)
    requires (forall i | 0 <= i < |os| :: os[i].notify) && (forall n | n in faults :: !faults[n])
    ensures ObserveAll(s, os, faults).flagged == start + Elements(ObserveAll(s, os, faults).penalties)
    decreases |os|
  {
    if os != [] {
      var s' := Observe(s, os[0], faults);
      assert forall i | 0 <= i < |os| - 1 :: os[1..][i] == os[i + 1];
      assert s'.flagged == start + Elements(s'.penalties) by {
        assert Elements(s.penalties + [os[0].flag]) == Elements(s.penalties) + {os[0].flag};
      }
      PenaltiesAreNewFlags(start, s', os[1..], faults);
    }
  }
}
