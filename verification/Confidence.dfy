/** Bayesian confidence: the smoothed update over the reals, and the worker that folds a
    batch of evidence per engram. */
module Confidence {

  import opened Common
  import opened LtpCounters

  const ALPHA := 0.025
  const SCALE := 0.95
  const MIN_DENOMINATOR := 0.000_000_001
  const CONTRADICTION := 0.1
  const NEGLIGIBLE := 0.001

  function Clamp(x: real): real {
    if x < 0.0 then 0.0 else if x > 1.0 then 1.0 else x
  }

  function Raw(p: real, e: real): real {
    p * e + (1.0 - p) * (1.0 - e)
  }

  /** The denominator, kept away from zero. */
  function Denominator(p: real, e: real): (d: real)
    ensures d >= MIN_DENOMINATOR && d >= Raw(p, e)
  {
    if Raw(p, e) < MIN_DENOMINATOR then MIN_DENOMINATOR else Raw(p, e)
  }

  function Posterior(p: real, e: real): real {
    p * e / Denominator(p, e)
  }

  function BayesianUpdate(prior: real, evidence: real): real {
    SCALE * Posterior(Clamp(prior), Clamp(evidence)) + ALPHA
  }

  // ---------- Range and monotonicity ----------

  lemma MulNonNegative(x: real, y: real)
    requires x >= 0.0 && y >= 0.0
    ensures x * y >= 0.0
  {
  }

  lemma PosteriorRange(p: real, e: real)
    requires 0.0 <= p <= 1.0 && 0.0 <= e <= 1.0
    ensures 0.0 <= Posterior(p, e) <= 1.0
  {
    MulNonNegative(p, e);
    MulNonNegative(1.0 - p, 1.0 - e);
  }

  /** Every result lies strictly between certainty and impossibility. */
  lemma UpdateRange(prior: real, evidence: real)
    ensures 0.025 <= BayesianUpdate(prior, evidence) <= 0.975
  {
    PosteriorRange(Clamp(prior), Clamp(evidence));
    hide Posterior;
  }

  /** The cross product behind monotonicity, on both sides of the clamp. */
  lemma CrossProduct(p: real, p': real, e: real)
    requires 0.0 <= p <= p' <= 1.0 && 0.0 <= e <= 1.0
    ensures p * Denominator(p', e) <= p' * Denominator(p, e)
  {
    var d, d' := Denominator(p, e), Denominator(p', e);
    RawCross(p, p', e);
    Scale(Raw(p, e), d, p');
    Scale(MIN_DENOMINATOR, d, p');
    hide Raw;
    if d' == MIN_DENOMINATOR {
      Scale(p, p', MIN_DENOMINATOR);
    }
  }

  lemma Scale(x: real, y: real, z: real)
    requires x <= y && z >= 0.0
    ensures z * x <= z * y && x * z <= y * z
  {
  }

  lemma RawCross(p: real, p': real, e: real)
    requires 0.0 <= p <= p' <= 1.0 && 0.0 <= e <= 1.0
    ensures p * Raw(p', e) <= p' * Raw(p, e)
  {
  }

  lemma PosteriorMonotone(p: real, p': real, e: real)
    requires 0.0 <= p <= p' <= 1.0 && 0.0 <= e <= 1.0
    ensures Posterior(p, e) <= Posterior(p', e)
  {
    CrossProduct(p, p', e);
    CrossQuotient(p, p', e, Denominator(p, e), Denominator(p', e));
  }

  lemma CrossQuotient(p: real, p': real, e: real, d: real, d': real)
    requires d > 0.0 && d' > 0.0 && e >= 0.0 && p * d' <= p' * d
    ensures p * e / d <= p' * e / d'
  {
  }

  /** More prior or more evidence never means less confidence, for all reals and
      across the clamped denominator. */
  lemma UpdateMonotone(p: real, p': real, e: real, e': real)
    requires p <= p' && e <= e'
    ensures BayesianUpdate(p, e) <= BayesianUpdate(p', e')
  {
    var x, x', y, y' := Clamp(p), Clamp(p'), Clamp(e), Clamp(e');
    PosteriorMonotone(x, x', y);
    PosteriorMonotone(y, y', x');
    hide Posterior, Clamp;
  }

  // ---------- What the update computes ----------

  lemma PosteriorTimes(p: real, e: real)
    ensures Posterior(p, e) * Denominator(p, e) == p * e
  {
    Quotient(p * e, Denominator(p, e));
  }

  lemma Quotient(n: real, d: real)
    requires d > 0.0
    ensures n / d * d == n
  {
  }

  /** Undoing the smoothing, the odds after the update are the odds before it times the odds
      of the evidence, unless the denominator was lifted. */
  lemma OddsMultiply(p: real, e: real)
    requires 0.0 <= p <= 1.0 && 0.0 <= e <= 1.0
    requires p * e + (1.0 - p) * (1.0 - e) >= 0.000_000_001
    ensures var x := (BayesianUpdate(p, e) - 0.025) / 0.95;
            x * ((1.0 - p) * (1.0 - e)) == (1.0 - x) * (p * e)
  {
    var x := (BayesianUpdate(p, e) - 0.025) / 0.95;
    var against, support := (1.0 - p) * (1.0 - e), p * e;
    PosteriorTimes(p, e);
    assert Denominator(p, e) == support + against;
    hide Posterior, Denominator;
    assert x == Posterior(p, e);
    Odds(x, support, against);
  }

  lemma Odds(x: real, n: real, m: real)
    requires x * (n + m) == n
    ensures x * m == (1.0 - x) * n
  {
  }

  /** Neutral evidence only pulls towards the middle; a prior of zero stays at the bottom,
      whatever the evidence, and a certain one at the top unless the evidence is nil. */
  lemma EvidenceExtremes(p: real, e: real)
    ensures 0.0 <= p <= 1.0 ==> BayesianUpdate(p, 0.5) == 0.95 * p + 0.025
    ensures p <= 0.0 ==> BayesianUpdate(p, e) == 0.025
    ensures p >= 1.0 && e >= 0.000_000_001 ==> BayesianUpdate(p, e) == 0.975
  {
    if 0.0 <= p <= 1.0 {
      assert Raw(p, 0.5) == 0.5;
    }
    var x := Clamp(e);
    assert 0.0 * x / Denominator(0.0, x) == 0.0;
    assert Raw(1.0, x) == x;
    if e >= 0.000_000_001 {
      assert Denominator(1.0, x) == x;
      assert x / x == 1.0;
    }
  }

  // ---------- Repeated contradiction ----------

  /** Fix the sign of c - BayesianUpdate(c, 0.1). */
  function Drop(c: real): real {
    0.825 * c - 0.8 * (c * c) - 0.0225
  }

  lemma ContradictionPosterior(c: real)
    requires 0.0 <= c <= 1.0
    ensures Denominator(c, CONTRADICTION) == 0.9 - 0.8 * c >= 0.1
    ensures Posterior(c, CONTRADICTION) * (0.9 - 0.8 * c) == 0.1 * c
    ensures BayesianUpdate(c, CONTRADICTION) == SCALE * Posterior(c, CONTRADICTION) + ALPHA
  {
  }

  /** One contradiction lowers a confidence exactly where the quadratic is positive:
      between roughly 0.028 and 1. */
  lemma ContradictionLowersIff(c: real)
    requires 0.0 <= c <= 1.0
    ensures BayesianUpdate(c, CONTRADICTION) < c <==> Drop(c) > 0.0
  {
    ContradictionPosterior(c);
    var q, d := Posterior(c, CONTRADICTION), 0.9 - 0.8 * c;
    hide Posterior;
    var x := c - BayesianUpdate(c, CONTRADICTION);
    assert x * d == Drop(c) by {
      assert x == c - SCALE * q - ALPHA;
      assert x * d == c * d - SCALE * (q * d) - ALPHA * d;
      assert c * d == 0.9 * c - 0.8 * (c * c);
    }
  }

  /** In particular on all of [0.03, 1]. */
  lemma ContradictionLowers(c: real)
    requires 0.03 <= c <= 1.0
    ensures BayesianUpdate(c, CONTRADICTION) < c
  {
    MulNonNegative(c - 0.03, 1.0 - c);
    assert (c - 0.03) * (1.0 - c) == 1.03 * c - c * c - 0.03;
    ContradictionLowersIff(c);
  }

  /** The same contradiction applied `n` times. */
  function Repeated(c: real, n: nat): real {
    if n == 0 then c else BayesianUpdate(Repeated(c, n - 1), CONTRADICTION)
  }

  /** Each repetition strictly lowers the confidence while it is at least 0.03. */
  lemma {:induction false} RepetitionLowers(c: real, n: nat)
    requires 0.03 <= c <= 1.0
    ensures 0.0 <= Repeated(c, n) <= c
    ensures Repeated(c, n) >= 0.03 ==> Repeated(c, n + 1) < Repeated(c, n)
  {
    hide BayesianUpdate;
    if n > 0 {
      RepetitionLowers(c, n - 1);
      UpdateRange(Repeated(c, n - 1), CONTRADICTION);
      UpdateMonotone(Repeated(c, n - 1), c, CONTRADICTION, CONTRADICTION);
      ContradictionLowers(c);
    }
    if Repeated(c, n) >= 0.03 {
      ContradictionLowers(Repeated(c, n));
    }
  }

  /** An upper bound on one step, cross-multiplied. */
  lemma StepBelow(c: real, v: real)
    requires 0.0 <= c <= 1.0 && 0.095 * c <= (v - 0.025) * (0.9 - 0.8 * c)
    ensures BayesianUpdate(c, CONTRADICTION) <= v
  {
  }

  lemma FourRepetitions(c: real)
    ensures Repeated(c, 4) < 0.071
  {
    hide BayesianUpdate;
    var r1, r2, r3 := Repeated(c, 1), Repeated(c, 2), Repeated(c, 3);
    assert r1 == BayesianUpdate(Repeated(c, 0), CONTRADICTION);
    UpdateRange(Repeated(c, 0), CONTRADICTION);
    StepBelow(0.975, 0.797);
    UpdateMonotone(r1, 0.975, CONTRADICTION, CONTRADICTION);
    assert r2 <= 0.797;
    StepBelow(0.797, 0.314);
    UpdateMonotone(r2, 0.797, CONTRADICTION, CONTRADICTION);
    assert r3 <= 0.314;
    StepBelow(0.314, 0.0709999);
    UpdateMonotone(r3, 0.314, CONTRADICTION, CONTRADICTION);
  }

  lemma {:induction false} RepeatedTwice(c: real, m: nat, n: nat)
    ensures Repeated(Repeated(c, m), n) == Repeated(c, m + n)
  {
    hide BayesianUpdate;
    if n > 0 {
      RepeatedTwice(c, m, n - 1);
    }
  }

  /** Four or more repetitions take any memory below 0.071, however certain it was: why
      the penalty must fire only once per contradiction. */
  lemma PenaltyCompounds(c: real, n: nat)
    requires n >= 4
    ensures Repeated(c, n) < 0.071
  {
    FourRepetitions(Repeated(c, n - 4));
    RepeatedTwice(c, n - 4, 4);
    hide Repeated;
  }

  // ---------- The worker ----------

  datatype ConfidenceUpdate = ConfidenceUpdate(ws: Workspace, engram: Id, evidence: real)

  type Store = map<(Workspace, Id), real>

  /** The evidence a batch holds for an engram, in order. */
  function EvidenceFor(batch: seq<ConfidenceUpdate>, id: Id): seq<real> {
    if batch == [] then []
    else
      var rest, u := EvidenceFor(batch[..|batch| - 1], id), batch[|batch| - 1];
      if u.engram == id then rest + [u.evidence] else rest
  }

  /** A group takes the vault of its first update. */
  function VaultFor(batch: seq<ConfidenceUpdate>, id: Id): Option<Workspace> {
    if batch == [] then None
    else
      var rest, u := VaultFor(batch[..|batch| - 1], id), batch[|batch| - 1];
      if rest.None? && u.engram == id then Some(u.ws) else rest
  }

  function Fold(prior: real, evidence: seq<real>): real {
    if evidence == [] then prior
    else BayesianUpdate(Fold(prior, evidence[..|evidence| - 1]), evidence[|evidence| - 1])
  }

  lemma FoldRange(prior: real, evidence: seq<real>)
    requires evidence != []
    ensures 0.025 <= Fold(prior, evidence) <= 0.975
  {
    UpdateRange(Fold(prior, evidence[..|evidence| - 1]), evidence[|evidence| - 1]);
  }

  datatype Group = Group(ws: Workspace, evidence: seq<real>)

  ghost predicate GroupsOf(batch: seq<ConfidenceUpdate>, groups: map<Id, Group>) {
    forall id: Id :: (id in groups <==> VaultFor(batch, id).Some?)
      && (id in groups ==> groups[id] == Group(VaultFor(batch, id).value, EvidenceFor(batch, id)))
  }

  lemma {:induction false} NoVaultNoEvidence(batch: seq<ConfidenceUpdate>, id: Id)
    ensures VaultFor(batch, id).None? <==> EvidenceFor(batch, id) == []
  {
    if batch != [] {
      NoVaultNoEvidence(batch[..|batch| - 1], id);
    }
  }

  method GroupUpdates(batch: seq<ConfidenceUpdate>) returns (groups: map<Id, Group>)
    ensures GroupsOf(batch, groups)
  {
    groups := map[];
    for i := 0 to |batch|
      invariant GroupsOf(batch[..i], groups)
    {
      assert batch[..i + 1][..i] == batch[..i];
      var u := batch[i];
      NoVaultNoEvidence(batch[..i], u.engram);
      if u.engram in groups {
        var g := groups[u.engram];
        groups := groups[u.engram := Group(g.ws, g.evidence + [u.evidence])];
      } else {
        groups := groups[u.engram := Group(u.ws, [u.evidence])];
      }
    }
    assert batch[..|batch|] == batch;
  }

  method FoldEvidence(prior: real, evidence: seq<real>) returns (r: real)
    ensures r == Fold(prior, evidence)
  {
    hide BayesianUpdate;
    r := prior;
    for i := 0 to |evidence|
      invariant r == Fold(prior, evidence[..i])
    {
      assert evidence[..i + 1][..i] == evidence[..i];
      r := BayesianUpdate(r, evidence[i]);
    }
    assert evidence[..|evidence|] == evidence;
  }

  /** The reads and the writes of the store that fail. */
  datatype Faults = Faults(unreadable: set<(Workspace, Id)>, unwritable: set<(Workspace, Id)>)

  /** What one group leaves in the store: no change for an absent or unreadable engram, a
      negligible difference or a failing write. */
  function Settle(store: Store, id: Id, g: Group, faults: Faults): Store {
    var key := (g.ws, id);
    if key !in store || key in faults.unreadable then store
    else
      var posterior := Fold(store[key], g.evidence);
      var delta := if posterior >= store[key] then posterior - store[key] else store[key] - posterior;
      if delta < NEGLIGIBLE || key in faults.unwritable then store else store[key := posterior]
  }

  /** A posterior at least 0.001 away from the stored confidence is written, a closer one is
      not; no other engram is touched. */
  lemma SettleWrites(store: Store, id: Id, g: Group, faults: Faults)
    requires (g.ws, id) in store
    ensures var key := (g.ws, id);
            var before, posterior, after := store[key], Fold(store[key], g.evidence), Settle(store, id, g, faults);
            && after.Keys == store.Keys && (forall k | k in store && k != key :: after[k] == store[k])
            && after[key] == if key in faults.unreadable || key in faults.unwritable then before
                             else if posterior - before >= 0.001 || before - posterior >= 0.001 then posterior
                             else before
  {
    hide Fold;
  }

  /** What the batch leaves for an engram is decided by its own evidence alone,
      folded in submission order, whatever order the groups are visited in. */
  method ProcessBatch(batch: seq<ConfidenceUpdate>, store: Store, faults: Faults) returns (r: Store)
    ensures r.Keys == store.Keys
    ensures forall ws: Workspace, id: Id | (ws, id) in store ::
              r[(ws, id)] ==
              if VaultFor(batch, id) == Some(ws) then
                Settle(store, id, Group(ws, EvidenceFor(batch, id)), faults)[(ws, id)]
              else store[(ws, id)]
  {
    hide Fold;
    var groups := GroupUpdates(batch);
    r := store;
    var rest := groups.Keys;
    while rest != {}
      invariant rest <= groups.Keys && r.Keys == store.Keys
      invariant forall ws: Workspace, id: Id | (ws, id) in store ::
                  r[(ws, id)] ==
                  if id in groups.Keys - rest && groups[id].ws == ws then
                    Settle(store, id, groups[id], faults)[(ws, id)]
                  else store[(ws, id)]
      decreases rest
    {
      var id :| id in rest;
      rest := rest - {id};
      var g := groups[id];
      var key := (g.ws, id);
      if key !in r || key in faults.unreadable {
        continue;
      }
      var current := r[key];
      var prior := FoldEvidence(current, g.evidence);
      var delta := if prior >= current then prior - current else current - prior;
      if delta < NEGLIGIBLE {
        continue;
      }
      if key !in faults.unwritable {
        r := r[key := prior];
      }
    }
  }
}
