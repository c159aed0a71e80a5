/** Long-term potentiation: the session-local co-activation counters. */
module LtpCounters {

  import opened Common

  const WORKSPACE_LENGTH := 8
  type Workspace = s: seq<Byte> | |s| == WORKSPACE_LENGTH witness seq(WORKSPACE_LENGTH, _ => 0)

  /** A canonical pair of engrams. */
  datatype PairKey = PairKey(a: Id, b: Id)

  datatype LtpKey = LtpKey(ws: Workspace, pair: PairKey)

  const MAX_LTP_ENTRIES := 10000

  datatype Ltp = Ltp(counts: map<LtpKey, nat>, potentiated: set<LtpKey>)

  function CountOf(s: Ltp, key: LtpKey): nat {
    if key in s.counts then s.counts[key] else 0
  }

  /** A known pair always counts; a new one only below the cap. */
  predicate Accepts(s: Ltp, key: LtpKey, threshold: int) {
    threshold > 0 && (key in s.counts || |s.counts| < MAX_LTP_ENTRIES)
  }

  /** 32-bit addition that saturates when it wrapped around. */
  function AddUInt32(count: UInt32, delta: UInt32): nat {
    var sum := (count + delta) % TWO_32;
    if sum < count then MAX_UINT32 else sum
  }

  lemma AddSaturates(count: UInt32, delta: UInt32)
    ensures AddUInt32(count, delta) == Min(count + delta, MAX_UINT32)
  {
  }

  ghost predicate InRange(s: Ltp) {
    forall k | k in s.counts :: s.counts[k] <= MAX_UINT32
  }

  /** The new state, and whether the pair became potentiated in this call. */
  function AddCount(s: Ltp, key: LtpKey, delta: UInt32, threshold: int): (r: (Ltp, bool))
    requires CountOf(s, key) <= MAX_UINT32
  {
    if !Accepts(s, key, threshold) then (s, false)
    else
      var n := AddUInt32(CountOf(s, key), delta);
      var s' := s.(counts := s.counts[key := n]);
      if key in s.potentiated then (s', false)
      else if n >= threshold % TWO_32 then (s'.(potentiated := s.potentiated + {key}), true)
      else (s', false)
  }

  class LtpState {
    var counts: map<LtpKey, nat>
    var potentiated: set<LtpKey>

    ghost function View(): Ltp
      reads this
    {
      Ltp(counts, potentiated)
    }

    constructor ()
      ensures View() == Ltp(map[], {})
    {
      counts, potentiated := map[], {};
    }

    method Add(key: LtpKey, delta: UInt32, threshold: int) returns (newly: bool)
      requires InRange(View())
      modifies this
      ensures InRange(View())
      ensures (View(), newly) == AddCount(old(View()), key, delta, threshold)
    {
      if threshold <= 0 {
        return false;
      }
      var known := key in counts;
      if !known && |counts| >= MAX_LTP_ENTRIES {
        return false;
      }
      var before := if known then counts[key] else 0;
      var newCount := (before + delta) % TWO_32;
      if newCount < before {
        newCount := MAX_UINT32;
      }
      counts := counts[key := newCount];
      if key in potentiated {
        return false;
      }
      if newCount >= threshold % TWO_32 {
        potentiated := potentiated + {key};
        return true;
      }
      return false;
    }

    method IsPotentiated(key: LtpKey) returns (r: bool)
      ensures r <==> key in View().potentiated
    {
      r := key in potentiated;
    }
  }

  // ---------- Any sequence of calls ----------

  datatype Call = Call(key: LtpKey, delta: UInt32, threshold: int)

  function After(calls: seq<Call>): (s: Ltp)
    ensures InRange(s)
  {
    if calls == [] then Ltp(map[], {})
    else
      var c := calls[|calls| - 1];
      AddCount(After(calls[..|calls| - 1]), c.key, c.delta, c.threshold).0
  }

  /** The sum of the deltas accepted for a key. */
  function Accepted(calls: seq<Call>, key: LtpKey): nat {
    if calls == [] then 0
    else
      var init, c := calls[..|calls| - 1], calls[|calls| - 1];
      Accepted(init, key) + if c.key == key && Accepts(After(init), key, c.threshold) then c.delta else 0
  }

  /** How many calls for a key answered "newly potentiated". */
  function Announced(calls: seq<Call>, key: LtpKey): nat {
    if calls == [] then 0
    else
      var init, c := calls[..|calls| - 1], calls[|calls| - 1];
      Announced(init, key) + if c.key == key && AddCount(After(init), c.key, c.delta, c.threshold).1 then 1 else 0
  }

  /** A pair is counted if the threshold is positive and it is known or one of the first
      10000; otherwise the call changes nothing. */
  lemma AcceptedIff(s: Ltp, key: LtpKey, delta: UInt32, threshold: int)
    requires InRange(s)
    ensures var (s', newly) := AddCount(s, key, delta, threshold);
            if threshold > 0 && (key in s.counts || |s.counts| < 10000) then
              && s'.counts == s.counts[key := Min(CountOf(s, key) + delta, MAX_UINT32)]
              && (newly <==> key !in s.potentiated && s'.counts[key] >= threshold % TWO_32)
              && s'.potentiated == s.potentiated + if newly then {key} else {}
            else s' == s && !newly
  {
    AddSaturates(CountOf(s, key), delta);
    hide AddUInt32;
  }

  lemma StepFacts(s: Ltp, c: Call, key: LtpKey)
    requires InRange(s) && |s.counts| <= MAX_LTP_ENTRIES && s.potentiated <= s.counts.Keys
    ensures var (s', newly) := AddCount(s, c.key, c.delta, c.threshold);
            var accepted := c.key == key && Accepts(s, key, c.threshold);
            && |s'.counts| <= MAX_LTP_ENTRIES && s'.potentiated <= s'.counts.Keys
            && CountOf(s', key) == (if accepted then Min(CountOf(s, key) + c.delta, MAX_UINT32) else CountOf(s, key))
            && (key in s'.counts <==> key in s.counts || accepted)
            && (key in s'.potentiated <==> key in s.potentiated || (c.key == key && newly))
            && (newly ==> c.key !in s.potentiated)
  {
  }

  /** At most 10000 tracked pairs; each count is the true sum of its accepted deltas,
      capped; potentiated pairs are tracked; each is announced exactly once. */
  lemma {:induction false} CountsAreSums(calls: seq<Call>, key: LtpKey)
    ensures var s := After(calls);
            && |s.counts| <= MAX_LTP_ENTRIES
            && s.potentiated <= s.counts.Keys
            && CountOf(s, key) == Min(Accepted(calls, key), MAX_UINT32)
            && (key !in s.counts ==> Accepted(calls, key) == 0)
            && Announced(calls, key) == (if key in s.potentiated then 1 else 0)
  {
    if calls != [] {
      var init, c := calls[..|calls| - 1], calls[|calls| - 1];
      CountsAreSums(init, key);
      StepFacts(After(init), c, key);
      hide AddCount, CountOf, Accepts;
    }
  }

  /** Potentiation is never lost. */
  lemma {:induction false} PotentiationPersists(calls: seq<Call>, more: seq<Call>)
    ensures After(calls).potentiated <= After(calls + more).potentiated
    ensures forall k | k in After(calls).counts :: k in After(calls + more).counts
    decreases |more|
  {
    if more == [] {
      assert calls + more == calls;
    } else {
      PotentiationPersists(calls, more[..|more| - 1]);
      assert (calls + more)[..|calls + more| - 1] == calls + more[..|more| - 1];
    }
  }

  ghost predicate FixedThreshold(calls: seq<Call>, t: int) {
    forall i | 0 <= i < |calls| :: calls[i].threshold == t
  }

  ghost predicate PotentiatedByCount(s: Ltp, key: LtpKey, t: int) {
    key in s.potentiated <==> key in s.counts && s.counts[key] >= t
  }

  lemma CountStep(s: Ltp, key: LtpKey, c: Call)
    requires InRange(s) && 0 < c.threshold <= MAX_UINT32 && PotentiatedByCount(s, key, c.threshold)
    ensures PotentiatedByCount(AddCount(s, c.key, c.delta, c.threshold).0, key, c.threshold)
  {
    AddSaturates(CountOf(s, c.key), c.delta);
    assert c.threshold % TWO_32 == c.threshold;
    hide AddUInt32;
  }

  lemma {:induction false} CountDecides(calls: seq<Call>, key: LtpKey, t: int)
    requires 0 < t <= MAX_UINT32 && FixedThreshold(calls, t)
    ensures PotentiatedByCount(After(calls), key, t)
  {
    if calls != [] {
      var init, c := calls[..|calls| - 1], calls[|calls| - 1];
      CountDecides(init, key, t);
      CountStep(After(init), key, c);
      hide AddCount, PotentiatedByCount;
    }
  }

  /** Under a fixed positive threshold, potentiated means "counted to the threshold"
      in every run exactly when the threshold fits in 32 bits. */
  lemma ThresholdMustFit(t: int)
    requires t > 0
    ensures t <= MAX_UINT32 <==>
            forall calls: seq<Call>, key: LtpKey | FixedThreshold(calls, t) :: PotentiatedByCount(After(calls), key, t)
  {
    if t <= MAX_UINT32 {
      forall calls: seq<Call>, key: LtpKey | FixedThreshold(calls, t)
        ensures PotentiatedByCount(After(calls), key, t)
      {
        CountDecides(calls, key, t);
      }
    } else {
      var key := LtpKey(seq(WORKSPACE_LENGTH, _ => 0), PairKey(ZERO_ID, ZERO_ID));
      var calls := [Call(key, MAX_UINT32, t)];
      assert calls[..0] == [];
      assert After(calls[..0]) == Ltp(map[], {});
      assert After(calls).counts == map[key := MAX_UINT32];
      assert key in After(calls).potentiated;
      assert FixedThreshold(calls, t) && !PotentiatedByCount(After(calls), key, t);
    }
  }
}
