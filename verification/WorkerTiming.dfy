/** How long an item can wait in the pending batch, under the current ticker rule and
    under the debounce it replaced. */
module WorkerTiming {

  import opened Common
  import opened Workers

  /** Items become idle only after any pending flush is due. */
  predicate Timely(cfg: Config) {
    cfg.Valid() && cfg.WaitBound() < cfg.idleThreshold && cfg.WaitBound() < cfg.dormantThreshold
  }

  /** Every item of the flush was taken at most `wait` before it. */
  ghost predicate Prompt<T>(cfg: Config, f: Flush<T>) {
    && |f.taken| == |f.items|
    && f.wait <= cfg.WaitBound()
    && forall i | 0 <= i < |f.taken| :: 0 <= f.at - f.taken[i] <= f.wait
  }

  ghost predicate Clocked<T>(cfg: Config, w: Worker<T>) {
    && w.now > 0 && 0 <= w.lastItem <= w.now
    && 0 < w.maxWait <= cfg.WaitBound()
    && (w.control != Done ==> w.now <= w.due <= w.now + w.period)
    && (w.activity == Active ==> w.period == w.maxWait)
    && w.period > 0
  }

  /** A non-empty batch means an active worker whose next tick comes in time for the
      oldest item; during the drain no time passes. */
  ghost predicate Covered<T>(w: Worker<T>) {
    && |w.taken| == |w.batch|
    && (w.control == Done ==> w.batch == [])
    && (w.batch != [] ==>
          && 0 < w.taken[0] && w.now <= w.taken[0] + w.maxWait
          && (forall i | 0 <= i < |w.taken| :: w.taken[0] <= w.taken[i] <= w.now)
          && (w.control != Draining ==>
                w.activity == Active && w.due <= w.taken[0] + w.maxWait && w.taken[0] <= w.lastItem))
  }

  ghost predicate OnTime<T>(cfg: Config, w: Worker<T>) {
    && Clocked(cfg, w) && Covered(w)
    && forall f | f in w.flushed :: Prompt(cfg, f)
  }

  lemma {:induction false} AcceptAllFrame<T>(cfg: Config, w: Worker<T>, items: seq<T>)
    ensures var w' := AcceptAll(cfg, w, items);
            w' == w.(channel := w'.channel, accepted := w'.accepted, submitted := w'.submitted, dropped := w'.dropped)
  {
    if items != [] {
      AcceptAllFrame(cfg, w, items[..|items| - 1]);
    }
  }

  lemma FlushOnTime<T>(cfg: Config, w: Worker<T>, ok: bool, shutdown: bool)
    requires |w.taken| == |w.batch|
    requires 0 < w.maxWait <= cfg.WaitBound()
    requires w.batch != [] ==> w.now <= w.taken[0] + w.maxWait
    requires forall i | 0 <= i < |w.taken| :: w.taken[0] <= w.taken[i] <= w.now
    requires forall f | f in w.flushed :: Prompt(cfg, f)
    ensures forall f | f in FlushStep(w, ok, shutdown).flushed :: Prompt(cfg, f)
  {
  }

  /** While a batch is pending the activity update keeps the worker active and
      leaves the ticker alone. */
  lemma EnterOnTime<T>(cfg: Config, w: Worker<T>)
    requires Timely(cfg) && OnTime(cfg, w) && w.control == Top
    ensures OnTime(cfg, EnterStep(cfg, w))
    ensures w.batch != [] ==> EnterStep(cfg, w) == w.(control := Select)
  {
    hide Prompt;
    if w.batch != [] {
      assert w.lastItem > 0;
      assert IdleFor(cfg, w) <= w.maxWait;
    }
  }

  lemma ReceiveOnTime<T>(cfg: Config, w: Worker<T>, ok: bool)
    requires Timely(cfg) && OnTime(cfg, w) && Enabled(w, Receive(ok))
    ensures OnTime(cfg, ReceiveStep(cfg, w, ok))
  {
    hide Prompt;
    var a := BecomeActive(w.(lastItem := w.now));
    assert Clocked(cfg, a) && Covered(a);
    var b := Take(a);
    assert Covered(b) by {
      assert b.taken[0] == if w.batch == [] then w.now else w.taken[0];
    }
    if |b.batch| >= cfg.batchSize {
      FlushOnTime(cfg, b, ok, false);
    }
  }

  /** Only an under-pressure interval below half a second is lengthened. */
  lemma AdaptedWaitBounds(cfg: Config, queueLen: nat, wait: nat)
    requires 0 < wait <= cfg.WaitBound() && cfg.adaptive
    ensures 0 < AdaptedWait(cfg, queueLen, wait) <= cfg.WaitBound()
    ensures 4 * queueLen > 3 * cfg.capacity ==> (AdaptedWait(cfg, queueLen, wait) > wait <==> wait < HALF_SECOND)
  {
  }

  lemma TickOnTime<T>(cfg: Config, w: Worker<T>, ok: bool)
    requires Timely(cfg) && OnTime(cfg, w) && Enabled(w, Tick(ok))
    ensures OnTime(cfg, TickStep(cfg, w, ok))
    ensures TickStep(cfg, w, ok).batch == []
  {
    hide Prompt, AdaptedWait;
    FlushOnTime(cfg, w.(due := w.due + w.period), ok, false);
    if cfg.adaptive {
      AdaptedWaitBounds(cfg, |w.channel| + |w.batch|, w.maxWait);
    }
  }

  lemma DrainOnTime<T>(cfg: Config, w: Worker<T>, ok: bool)
    requires Timely(cfg) && OnTime(cfg, w) && w.control == Draining
    ensures w.channel != [] ==> OnTime(cfg, Take(w))
    ensures OnTime(cfg, DrainEndStep(w, ok))
  {
    hide Prompt;
    if w.channel != [] {
      var b := Take(w);
      assert b.taken[0] == if w.batch == [] then w.now else w.taken[0];
    }
    FlushOnTime(cfg, w, ok, true);
  }

  lemma SubmitOnTime<T>(cfg: Config, w: Worker<T>, w': Worker<T>)
    requires OnTime(cfg, w)
    requires w' == w.(channel := w'.channel, accepted := w'.accepted, submitted := w'.submitted,
                      dropped := w'.dropped, lastItem := w'.lastItem)
    requires w'.lastItem == w.lastItem || w'.lastItem == w.now
    ensures OnTime(cfg, w')
  {
  }

  lemma AdvanceOnTime<T>(cfg: Config, w: Worker<T>, d: nat)
    requires OnTime(cfg, w) && Enabled(w, Advance(d))
    ensures OnTime(cfg, w.(now := w.now + d))
  {
  }

  lemma StepOnTime<T>(cfg: Config, w: Worker<T>, e: Event<T>)
    requires Timely(cfg) && OnTime(cfg, w) && Enabled(w, e)
    ensures OnTime(cfg, Step(cfg, w, e))
  {
    hide Prompt, Covered, Clocked;
    match e
    case Submit(item) => SubmitOnTime(cfg, w, Step(cfg, w, e));
    case SubmitBatch(items) =>
      AcceptAllFrame(cfg, w, items);
      SubmitOnTime(cfg, w, Step(cfg, w, e));
    case Advance(d) => AdvanceOnTime(cfg, w, d);
    case Enter => EnterOnTime(cfg, w);
    case Receive(ok) => ReceiveOnTime(cfg, w, ok);
    case Tick(ok) => TickOnTime(cfg, w, ok);
    case Cancel => CancelOnTime(cfg, w);
    case DrainOne => DrainOnTime(cfg, w, true);
    case DrainEnd(ok) => DrainOnTime(cfg, w, ok);
  }

  lemma CancelOnTime<T>(cfg: Config, w: Worker<T>)
    requires OnTime(cfg, w) && w.control == Select
    ensures OnTime(cfg, w.(control := Draining))
  {
  }

  /** However often items arrive: every flushed item waited at most the interval then
      in force, every pending one has waited at most the current interval, and a
      pending batch means the worker is active. */
  lemma {:induction false} RunOnTime<T>(cfg: Config, w: Worker<T>, events: seq<Event<T>>)
    requires Timely(cfg) && OnTime(cfg, w) && Feasible(cfg, w, events)
    ensures OnTime(cfg, After(cfg, w, events))
    decreases |events|
  {
    if events != [] {
      StepOnTime(cfg, w, events[0]);
      RunOnTime(cfg, Step(cfg, w, events[0]), events[1..]);
    }
  }

  lemma StartOnTime<T>(cfg: Config, now: int)
    requires cfg.Valid() && now > 0
    ensures OnTime<T>(cfg, Start(cfg, now))
  {
  }

  /** The bound in one place: from the start, over any run. */
  lemma BoundedFlush<T>(cfg: Config, now: int, events: seq<Event<T>>)
    requires Timely(cfg) && now > 0 && Feasible(cfg, Start(cfg, now), events)
    ensures var w := After(cfg, Start(cfg, now), events);
            && (forall f, i | f in w.flushed && 0 <= i < |f.taken| ::
                  |f.taken| == |f.items| && f.at <= f.taken[i] + f.wait && f.wait <= cfg.WaitBound())
            && (forall i | 0 <= i < |w.batch| :: |w.taken| == |w.batch| && w.now <= w.taken[i] + w.maxWait)
            && (w.batch != [] && w.control != Draining ==> w.activity == Active)
  {
    StartOnTime<T>(cfg, now);
    RunOnTime(cfg, Start(cfg, now), events);
  }

  // ---------- The thresholds this needs ----------

  ghost predicate PendingMeansActive<T>(w: Worker<T>) {
    w.batch != [] && w.control != Draining ==> w.activity == Active
  }

  lemma {:induction false} RunConcat<T>(cfg: Config, w: Worker<T>, a: seq<Event<T>>, b: seq<Event<T>>)
    requires Feasible(cfg, w, a) && Feasible(cfg, After(cfg, w, a), b)
    ensures Feasible(cfg, w, a + b) && After(cfg, w, a + b) == After(cfg, After(cfg, w, a), b)
    decreases |a|
  {
    hide Step, Enabled;
    if a == [] {
      assert a + b == b;
    } else {
      assert (a + b)[1..] == a[1..] + b;
      RunConcat(cfg, Step(cfg, w, a[0]), a[1..], b);
    }
  }

  lemma TwoSteps<T>(cfg: Config, w: Worker<T>, e: Event<T>, f: Event<T>)
    requires Enabled(w, e) && Enabled(Step(cfg, w, e), f)
    ensures Feasible(cfg, w, [e, f]) && After(cfg, w, [e, f]) == Step(cfg, Step(cfg, w, e), f)
  {
    hide Step, Enabled;
    var w' := Step(cfg, w, e);
    assert [e, f][1..] == [f] && [f][1..] == [];
    assert After(cfg, Step(cfg, w', f), []) == Step(cfg, w', f);
    assert Feasible(cfg, w', [f]) && After(cfg, w', [f]) == Step(cfg, w', f);
  }

  /** An active worker at the head of its loop with an item waiting, nothing pending and
      a whole interval ahead. */
  ghost predicate Poised<T>(w: Worker<T>) {
    && w.control == Top && w.activity == Active && w.channel != [] && w.batch == []
    && w.due == w.now + w.maxWait && w.now > 0
  }

  /** Taking the item leaves it pending, with a whole interval to go. */
  lemma TakesItem<T>(cfg: Config, w: Worker<T>)
    requires Poised(w) && cfg.batchSize > 1
    ensures var w' := After(cfg, w, [Enter, Receive(true)]);
            && Feasible(cfg, w, [Enter, Receive(true)])
            && w'.control == Top && w'.activity == Active && w'.batch != [] && w'.now == w.now == w'.lastItem
            && w'.maxWait == w.maxWait && w'.due == w.now + w.maxWait
  {
    var entered := Step(cfg, w, Enter);
    assert entered.channel == w.channel && entered.batch == [] && entered.maxWait == w.maxWait && entered.now == w.now;
    assert entered.activity == Active ==> entered.due == w.due;
    TwoSteps(cfg, w, Enter, Receive(true));
  }

  /** Held up there for a whole threshold, it goes idle. */
  lemma GoesIdle<T>(cfg: Config, w: Worker<T>, d: nat)
    requires w.control == Top && w.activity == Active && w.batch != [] && 0 < w.now == w.lastItem
    requires d == Min(cfg.idleThreshold, cfg.dormantThreshold) && w.now + d <= w.due
    ensures Feasible(cfg, w, [Advance(d), Enter]) && !PendingMeansActive(After(cfg, w, [Advance(d), Enter]))
  {
    TwoSteps(cfg, w, Advance(d), Enter);
  }

  lemma PoisedGoesIdle<T>(cfg: Config, w: Worker<T>) returns (events: seq<Event<T>>)
    requires Poised(w) && cfg.batchSize > 1 && Min(cfg.idleThreshold, cfg.dormantThreshold) <= w.maxWait
    ensures Feasible(cfg, w, events) && !PendingMeansActive(After(cfg, w, events))
  {
    var d: nat := Min(cfg.idleThreshold, cfg.dormantThreshold);
    TakesItem(cfg, w);
    GoesIdle(cfg, After(cfg, w, [Enter, Receive(true)]), d);
    events := [Enter, Receive(true)] + [Advance(d), Enter];
    hide After, Feasible, PendingMeansActive;
    RunConcat(cfg, w, [Enter, Receive(true)], [Advance(d), Enter]);
  }

  lemma OneStep<T>(cfg: Config, w: Worker<T>, e: Event<T>)
    requires Enabled(w, e)
    ensures Feasible(cfg, w, [e]) && After(cfg, w, [e]) == Step(cfg, w, e)
  {
    hide Step, Enabled;
    assert [e][1..] == [] && After(cfg, Step(cfg, w, e), []) == Step(cfg, w, e);
  }

  lemma {:induction false} AcceptAllFills<T>(cfg: Config, w: Worker<T>, items: seq<T>)
    requires |w.channel| <= cfg.capacity
    ensures |AcceptAll(cfg, w, items).channel| == Min(cfg.capacity, |w.channel| + |items|)
  {
    if items != [] {
      AcceptAllFills(cfg, w, items[..|items| - 1]);
    }
  }

  /** A full channel at the first tick lengthens a short interval to half a second. */
  lemma FullChannelLengthens<T>(cfg: Config, now: int, item: T) returns (events: seq<Event<T>>)
    requires cfg.Valid() && cfg.adaptive && cfg.baseMaxWait < HALF_SECOND && cfg.capacity > 0 && now > 0
    requires cfg.baseMaxWait < cfg.idleThreshold && cfg.baseMaxWait < cfg.dormantThreshold
    ensures Feasible(cfg, Start(cfg, now), events)
    ensures Poised(After(cfg, Start(cfg, now), events)) && After(cfg, Start(cfg, now), events).maxWait == HALF_SECOND
  {
    var w: Worker<T> := Start(cfg, now);
    var items := seq(cfg.capacity, _ => item);
    var e0, e1, e2, e3 := SubmitBatch(items), Advance(cfg.baseMaxWait), Enter, Tick(true);
    AcceptAllFills(cfg, w, items);
    AcceptAllFrame(cfg, w, items);
    hide AcceptAll;
    TwoSteps(cfg, w, e0, e1);
    var full := After(cfg, w, [e0, e1]);
    assert |full.channel| == cfg.capacity && full.now == full.due && full.lastItem == now && full.activity == Active;
    FullTick(cfg, full);
    events := [e0, e1] + [e2, e3];
    hide After, Feasible, Poised;
    RunConcat(cfg, w, [e0, e1], [e2, e3]);
  }

  lemma FullTick<T>(cfg: Config, w: Worker<T>)
    requires cfg.adaptive && cfg.capacity > 0 && |w.channel| == cfg.capacity && w.batch == []
    requires w.control == Top && w.activity == Active && w.maxWait == w.period == cfg.baseMaxWait < HALF_SECOND
    requires w.now == w.due && 0 < w.lastItem == w.now - cfg.baseMaxWait
    requires cfg.baseMaxWait < cfg.idleThreshold && cfg.baseMaxWait < cfg.dormantThreshold
    ensures Feasible(cfg, w, [Enter, Tick(true)])
    ensures Poised(After(cfg, w, [Enter, Tick(true)])) && After(cfg, w, [Enter, Tick(true)]).maxWait == HALF_SECOND
  {
    assert Step(cfg, w, Enter) == w.(control := Select);
    TwoSteps(cfg, w, Enter, Tick(true));
  }

  /** With a threshold no longer than the longest flush interval, a worker held up at the
      head of its loop for that threshold goes idle on a pending batch. */
  lemma GoesIdlePending<T>(cfg: Config, now: int, item: T) returns (events: seq<Event<T>>)
    requires cfg.Valid() && !Timely(cfg) && cfg.capacity > 0 && cfg.batchSize > 1 && now > 0
    ensures Feasible(cfg, Start(cfg, now), events)
    ensures !PendingMeansActive(After(cfg, Start(cfg, now), events))
  {
    var w: Worker<T> := Start(cfg, now);
    var before: seq<Event<T>>;
    if Min(cfg.idleThreshold, cfg.dormantThreshold) <= cfg.baseMaxWait {
      before := [Submit(item)];
      OneStep(cfg, w, Submit(item));
    } else {
      before := FullChannelLengthens(cfg, now, item);
    }
    var after := PoisedGoesIdle(cfg, After(cfg, w, before));
    hide After, Feasible, PendingMeansActive;
    RunConcat(cfg, w, before, after);
    events := before + after;
  }

  /** A pending batch means an active worker in every run if and only if both thresholds
      exceed the longest interval the flush ticker can run at. */
  lemma PendingMeansActiveIff<T>(cfg: Config, now: int, item: T)
    requires cfg.Valid() && cfg.capacity > 0 && cfg.batchSize > 1 && now > 0
    ensures cfg.WaitBound() < Min(cfg.idleThreshold, cfg.dormantThreshold) <==>
            forall events: seq<Event<T>> | Feasible(cfg, Start(cfg, now), events) ::
              PendingMeansActive(After(cfg, Start(cfg, now), events))
  {
    if Timely(cfg) {
      forall events: seq<Event<T>> | Feasible(cfg, Start(cfg, now), events)
        ensures PendingMeansActive(After(cfg, Start(cfg, now), events))
      {
        BoundedFlush(cfg, now, events);
      }
    } else {
      var events := GoesIdlePending(cfg, now, item);
    }
  }

  // ---------- The debounce this rule replaced ----------

  /** The former loop: every item resets the flush ticker. */
  function OldStep<T>(cfg: Config, w: Worker<T>, e: Event<T>): Worker<T>
    requires Enabled(w, e)
  {
    if e.Receive? then ResetTicker(Step(cfg, w, e), w.maxWait) else Step(cfg, w, e)
  }

  predicate OldFeasible<T>(cfg: Config, w: Worker<T>, events: seq<Event<T>>)
    decreases |events|
  {
    events == [] || (Enabled(w, events[0]) && OldFeasible(cfg, OldStep(cfg, w, events[0]), events[1..]))
  }

  function OldAfter<T>(cfg: Config, w: Worker<T>, events: seq<Event<T>>): Worker<T>
    requires OldFeasible(cfg, w, events)
    decreases |events|
  {
    if events == [] then w else OldAfter(cfg, OldStep(cfg, w, events[0]), events[1..])
  }

  lemma {:induction false} OldConcat<T>(cfg: Config, w: Worker<T>, a: seq<Event<T>>, b: seq<Event<T>>)
    requires OldFeasible(cfg, w, a) && OldFeasible(cfg, OldAfter(cfg, w, a), b)
    ensures OldFeasible(cfg, w, a + b) && OldAfter(cfg, w, a + b) == OldAfter(cfg, OldAfter(cfg, w, a), b)
    decreases |a|
  {
    hide Step, Enabled;
    if a == [] {
      assert a + b == b;
    } else {
      assert (a + b)[1..] == a[1..] + b;
      OldConcat(cfg, OldStep(cfg, w, a[0]), a[1..], b);
    }
  }

  /** `k` items pending, nothing flushed, the oldest waiting (k - 1)(maxWait - 1). */
  ghost predicate Starving<T>(cfg: Config, w: Worker<T>, k: nat) {
    && w.control == Top && w.activity == Active && w.channel == [] && w.flushed == []
    && |w.batch| == |w.taken| == k > 0
    && w.maxWait == w.period == cfg.baseMaxWait && w.due == w.now + w.period
    && 0 < w.lastItem == w.now
    && w.now == w.taken[0] + (k - 1) * (cfg.baseMaxWait - 1)
  }

  lemma StarvingRound<T>(cfg: Config, w: Worker<T>, k: nat, item: T)
    requires Timely(cfg) && cfg.baseMaxWait > 1 && cfg.capacity > 0 && k + 1 < cfg.batchSize
    requires Starving(cfg, w, k)
    ensures var round := [Enter, Submit(item), Advance(cfg.baseMaxWait - 1), Receive(true)];
            OldFeasible(cfg, w, round) && Starving(cfg, OldAfter(cfg, w, round), k + 1)
  {
    var d := cfg.baseMaxWait - 1;
    var e0, e1, e2, e3 := Enter, Submit(item), Advance(d), Receive(true);
    var w1 := OldStep(cfg, w, e0);
    assert w1 == w.(control := Select);
    var w2 := OldStep(cfg, w1, e1);
    var w3 := OldStep(cfg, w2, e2);
    var w4 := OldStep(cfg, w3, e3);
    FourSteps(cfg, w, e0, e1, e2, e3);
    assert w4.now == w.now + d && w4.taken[0] == w.taken[0];
    assert k * d == (k - 1) * d + d;
  }

  lemma FourSteps<T>(cfg: Config, w: Worker<T>, e0: Event<T>, e1: Event<T>, e2: Event<T>, e3: Event<T>)
    requires Enabled(w, e0)
    requires Enabled(OldStep(cfg, w, e0), e1)
    requires Enabled(OldStep(cfg, OldStep(cfg, w, e0), e1), e2)
    requires Enabled(OldStep(cfg, OldStep(cfg, OldStep(cfg, w, e0), e1), e2), e3)
    ensures OldFeasible(cfg, w, [e0, e1, e2, e3])
    ensures OldAfter(cfg, w, [e0, e1, e2, e3]) ==
            OldStep(cfg, OldStep(cfg, OldStep(cfg, OldStep(cfg, w, e0), e1), e2), e3)
  {
    hide Enabled, OldStep;
    assert [e0, e1, e2, e3][1..] == [e1, e2, e3];
    assert [e1, e2, e3][1..] == [e2, e3];
    assert [e2, e3][1..] == [e3];
    assert [e3][1..] == [];
    var w1 := OldStep(cfg, w, e0);
    var w2 := OldStep(cfg, w1, e1);
    var w3 := OldStep(cfg, w2, e2);
    var w4 := OldStep(cfg, w3, e3);
    assert OldFeasible(cfg, w4, []);
    assert OldFeasible(cfg, w3, [e3]) && OldAfter(cfg, w3, [e3]) == w4;
    assert OldFeasible(cfg, w2, [e2, e3]) && OldAfter(cfg, w2, [e2, e3]) == w4;
    assert OldFeasible(cfg, w1, [e1, e2, e3]) && OldAfter(cfg, w1, [e1, e2, e3]) == w4;
  }

  /** Under the debounce a run exists, for every number of items below the batch
      size, in which nothing is flushed and the oldest item's wait grows with it. */
  lemma {:induction false} DebounceStarves<T>(cfg: Config, now: int, k: nat, item: T) returns (events: seq<Event<T>>)
    requires Timely(cfg) && cfg.baseMaxWait > 1 && cfg.capacity > 0 && now > 0
    requires 0 < k < cfg.batchSize
    ensures OldFeasible(cfg, Start(cfg, now), events)
    ensures Starving(cfg, OldAfter(cfg, Start(cfg, now), events), k)
  {
    var w: Worker<T> := Start(cfg, now);
    if k == 1 {
      var e0, e1, e2, e3 := Enter, Submit(item), Advance(0), Receive(true);
      events := [e0, e1, e2, e3];
      FourSteps(cfg, w, e0, e1, e2, e3);
    } else {
      var before := DebounceStarves(cfg, now, k - 1, item);
      var round := [Enter, Submit(item), Advance(cfg.baseMaxWait - 1), Receive(true)];
      StarvingRound(cfg, OldAfter(cfg, w, before), k - 1, item);
      OldConcat(cfg, w, before, round);
      events := before + round;
    }
  }
}
