/** How the flush interval follows the pressure on the channel, and the ticker the
    activity state, over any run. */
module WorkerPressure {

  import opened Common
  import opened Workers
  import opened WorkerTiming

  // ---------- The ticker in each activity state ----------

  /** The ticker runs at the interval of the activity state. */
  ghost predicate Ticking<T>(cfg: Config, w: Worker<T>) {
    && (w.activity == Active ==> w.period == w.maxWait)
    && (w.activity == Idle ==> w.period == cfg.idlePoll)
    && (w.activity == Dormant ==> w.period == cfg.dormantPoll)
    && (w.control == Done <==> w.activity == Stopped)
  }

  /** The head of the loop: how long the worker has seen no item decides its state, and a
      change of state restarts the ticker at the interval of the new one. */
  lemma EnterClassifies<T>(cfg: Config, w: Worker<T>)
    requires Ticking(cfg, w) && w.control == Top
    ensures var w', silent := EnterStep(cfg, w), w.now - w.lastItem;
            && (w'.activity == Dormant <==> w.lastItem == 0 || silent >= cfg.dormantThreshold)
            && (w'.activity == Idle <==> w.lastItem != 0 && cfg.idleThreshold <= silent < cfg.dormantThreshold)
            && (w'.activity == Active <==>
                  w.lastItem != 0 && silent < cfg.idleThreshold && silent < cfg.dormantThreshold)
            && Ticking(cfg, w')
            && w'.due == if w'.activity == w.activity then w.due else w.now + w'.period
  {
  }

  lemma StepTicks<T>(cfg: Config, w: Worker<T>, e: Event<T>)
    requires Ticking(cfg, w) && Enabled(w, e)
    ensures Ticking(cfg, Step(cfg, w, e))
    ensures !e.Tick? ==> Step(cfg, w, e).maxWait == w.maxWait
  {
    hide AdaptedWait;
    match e
    case SubmitBatch(items) => AcceptAllFrame(cfg, w, items); hide AcceptAll;
    case Receive(ok) =>
      var a := Take(BecomeActive(w.(lastItem := w.now)));
      assert Ticking(cfg, a) && a.maxWait == w.maxWait;
    case _ =>
  }

  /** Over every run the ticker runs at the flush interval while the worker is active and
      at the poll interval of its state otherwise. */
  lemma {:induction false} RunTicks<T>(cfg: Config, w: Worker<T>, events: seq<Event<T>>)
    requires Ticking(cfg, w) && Feasible(cfg, w, events)
    ensures Ticking(cfg, After(cfg, w, events))
    decreases |events|
  {
    hide Ticking, Step, Enabled;
    if events != [] {
      StepTicks(cfg, w, events[0]);
      RunTicks(cfg, Step(cfg, w, events[0]), events[1..]);
    }
  }

  /** A new worker starts at the flush interval, and is dormant from its first turn until an
      item comes. */
  lemma StartTicks<T>(cfg: Config, now: int)
    ensures Ticking<T>(cfg, Start(cfg, now))
    ensures EnterStep<T>(cfg, Start(cfg, now)).activity == Dormant
  {
  }

  /** An accepted item and any non-empty batch wake the worker; a rejected item leaves the
      decision as it was, and an empty batch everything. */
  lemma SubmitWakes<T>(cfg: Config, w: Worker<T>, item: T, items: seq<T>)
    requires Ticking(cfg, w) && w.control == Top && w.now > 0 && items != []
    requires cfg.idleThreshold > 0 && cfg.dormantThreshold > 0
    ensures |w.channel| < cfg.capacity ==> EnterStep(cfg, SubmitStep(cfg, w, item)).activity == Active
    ensures |w.channel| >= cfg.capacity ==>
              EnterStep(cfg, SubmitStep(cfg, w, item)).activity == EnterStep(cfg, w).activity
    ensures EnterStep(cfg, SubmitBatchStep(cfg, w, items)).activity == Active
    ensures SubmitBatchStep(cfg, w, []) == w
  {
    AcceptAllFrame(cfg, w, items);
    assert AcceptAll(cfg, w, []) == w;
    hide AcceptAll;
  }

  // ---------- Shutting down ----------

  /** Draining takes every item and then hands everything to `process`. */
  lemma {:induction false} DrainCompletes<T>(cfg: Config, w: Worker<T>, ok: bool) returns (events: seq<Event<T>>)
    requires Conserves(cfg, w) && w.control == Draining
    ensures Feasible(cfg, w, events) && |events| == |w.channel| + 1
    ensures var w' := After(cfg, w, events);
            w'.control == Done && w'.channel == [] && Items(w'.flushed) == w.accepted == w'.accepted
    decreases |w.channel|
  {
    var e := if w.channel == [] then DrainEnd(ok) else DrainOne;
    StepConserves(cfg, w, e);
    hide Items, Balanced;
    if w.channel == [] {
      ShutdownFlushesAll(cfg, w, ok);
      OneStep(cfg, w, e);
      events := [e];
    } else {
      var rest := DrainCompletes(cfg, Step(cfg, w, e), ok);
      OneStep(cfg, w, e);
      RunConcat(cfg, w, [e], rest);
      events := [e] + rest;
    }
  }

  /** From wherever a run has got to, a cancelled worker can shut down, and has then handed
      everything it accepted to `process`. */
  lemma CancelledShutsDown<T>(cfg: Config, w: Worker<T>, ok: bool) returns (events: seq<Event<T>>)
    requires Conserves(cfg, w) && Enabled(w, Cancel)
    ensures Feasible(cfg, w, events) && |events| == |w.channel| + 2 && events[0] == Cancel
    ensures var w' := After(cfg, w, events);
            w'.control == Done && w'.channel == [] && Items(w'.flushed) == w.accepted == w'.accepted
  {
    StepConserves(cfg, w, Cancel);
    var rest := DrainCompletes(cfg, Step(cfg, w, Cancel), ok);
    OneStep(cfg, w, Cancel);
    RunConcat(cfg, w, [Cancel], rest);
    events := [Cancel] + rest;
  }

  // ---------- The interval under pressure ----------

  /** Twice as much, n times over. */
  function Shl(x: nat, n: nat): nat
    decreases n
  {
    if n == 0 then x else Shl(2 * x, n - 1)
  }

  /** Half as much, n times over. */
  function Shr(x: nat, n: nat): nat
    decreases n
  {
    if n == 0 then x else Shr(x / 2, n - 1)
  }

  /** More than three quarters of the channel's capacity is waiting. */
  predicate Pressed<T>(cfg: Config, w: Worker<T>) {
    4 * (|w.channel| + |w.batch|) > 3 * cfg.capacity
  }

  /** Less than a tenth of it is. */
  predicate Slack<T>(cfg: Config, w: Worker<T>) {
    10 * (|w.channel| + |w.batch|) < cfg.capacity
  }

  /** What one tick does to the interval of an adaptive worker: halved under pressure but
      not below half a second, doubled when slack but not above the base, otherwise kept;
      a worker that is not active keeps it. */
  lemma TickAdapts<T>(cfg: Config, w: Worker<T>, ok: bool)
    ensures var wait, wait' := w.maxWait, TickStep(cfg, w, ok).maxWait;
            && (!cfg.adaptive || w.activity != Active ==> wait' == wait)
            && (cfg.adaptive && w.activity == Active ==>
                  && (Pressed(cfg, w) ==>
                        && wait' == (if wait >= 1_000_000_000 then wait / 2 else 500_000_000)
                        && (wait > 500_000_000 ==> wait' < wait))
                  && (Slack(cfg, w) && wait < cfg.baseMaxWait ==>
                        wait' == if 2 * wait <= cfg.baseMaxWait then 2 * wait else cfg.baseMaxWait)
                  && (!Pressed(cfg, w) && !(Slack(cfg, w) && wait < cfg.baseMaxWait) ==> wait' == wait))
            && (wait' != wait ==> TickStep(cfg, w, ok).due == w.now + wait')
  {
    var t := FlushStep(w.(due := w.due + w.period), ok, false);
    assert t.maxWait == w.maxWait && t.activity == w.activity && t.now == w.now;
    hide FlushStep;
  }

  /** The ticks a run serves while active: only they adapt the interval. */
  function ActiveTicks<T>(cfg: Config, w: Worker<T>, events: seq<Event<T>>): nat
    requires Feasible(cfg, w, events)
    decreases |events|
  {
    if events == [] then 0
    else (if events[0].Tick? && w.activity == Active then 1 else 0) +
         ActiveTicks(cfg, Step(cfg, w, events[0]), events[1..])
  }

  /** Each of them finds the channel pressed. */
  predicate TicksPressed<T>(cfg: Config, w: Worker<T>, events: seq<Event<T>>)
    requires Feasible(cfg, w, events)
    decreases |events|
  {
    events != [] ==>
      && (events[0].Tick? && w.activity == Active ==> Pressed(cfg, w))
      && TicksPressed(cfg, Step(cfg, w, events[0]), events[1..])
  }

  predicate TicksSlack<T>(cfg: Config, w: Worker<T>, events: seq<Event<T>>)
    requires Feasible(cfg, w, events)
    decreases |events|
  {
    events != [] ==>
      && (events[0].Tick? && w.activity == Active ==> Slack(cfg, w))
      && TicksSlack(cfg, Step(cfg, w, events[0]), events[1..])
  }

  function Halved(wait: nat, n: nat): nat {
    if n == 0 then wait else Max(Shr(wait, n), 500_000_000)
  }

  function Doubled(base: nat, wait: nat, n: nat): nat {
    if wait >= base then wait else Min(Shl(wait, n), base)
  }

  lemma {:induction false} ShrMonotone(x: nat, y: nat, n: nat)
    requires x <= y
    ensures Shr(x, n) <= Shr(y, n) <= y
  {
    if n > 0 {
      ShrMonotone(x / 2, y / 2, n - 1);
    }
  }

  lemma {:induction false} ShlMonotone(x: nat, y: nat, n: nat)
    requires x <= y
    ensures x <= Shl(x, n) <= Shl(y, n)
    decreases n
  {
    if n > 0 {
      ShlMonotone(2 * x, 2 * y, n - 1);
    }
  }

  /** Halving is the inverse of doubling, for every threshold. */
  lemma {:induction false} ShrBelow(x: nat, h: nat, n: nat)
    ensures Shr(x, n) < h <==> x < Shl(h, n)
  {
    if n > 0 {
      ShrBelow(x / 2, h, n - 1);
      ShlTwice(h, n - 1);
    }
  }

  lemma {:induction false} ShlTwice(x: nat, n: nat)
    ensures Shl(2 * x, n) == 2 * Shl(x, n)
    decreases n
  {
    if n > 0 {
      ShlTwice(2 * x, n - 1);
    }
  }

  /** Halving once and then n times is halving n + 1 times. */
  lemma HalvedStep(wait: nat, n: nat)
    ensures Halved(if wait >= 1_000_000_000 then wait / 2 else 500_000_000, n) == Halved(wait, n + 1)
  {
    ShrMonotone(500_000_000, 500_000_000, n);
    ShrMonotone(wait / 2, wait / 2, n);
    assert Shr(wait, n + 1) == Shr(wait / 2, n);
    assert n == 0 ==> Shr(wait / 2, n) == wait / 2;
    hide Shr;
  }

  /** Over any run whose active ticks all find the channel pressed, n of them leave the
      interval halved n times, but at least half a second. */
  lemma {:induction false} PressureTightens<T>(cfg: Config, w: Worker<T>, events: seq<Event<T>>)
    requires cfg.adaptive && Ticking(cfg, w) && Feasible(cfg, w, events) && TicksPressed(cfg, w, events)
    ensures After(cfg, w, events).maxWait == Halved(w.maxWait, ActiveTicks(cfg, w, events))
    decreases |events|
  {
    if events != [] {
      var w' := Step(cfg, w, events[0]);
      StepTicks(cfg, w, events[0]);
      if events[0].Tick? {
        TickAdapts(cfg, w, events[0].ok);
      }
      HalvedStep(w.maxWait, ActiveTicks(cfg, w', events[1..]));
      hide Step, Enabled, Halved, Ticking, Pressed;
      PressureTightens(cfg, w', events[1..]);
    }
  }

  lemma DoubledStep(base: nat, wait: nat, n: nat)
    requires wait < base
    ensures Doubled(base, if 2 * wait <= base then 2 * wait else base, n) == Doubled(base, wait, n + 1)
  {
    ShlMonotone(2 * wait, 2 * wait, n);
    assert Shl(wait, n + 1) == Shl(2 * wait, n);
    hide Shl;
  }

  /** Over any run whose active ticks all find it slack, n of them double a shortened
      interval n times, up to the base. */
  lemma {:induction false} SlackRelaxes<T>(cfg: Config, w: Worker<T>, events: seq<Event<T>>)
    requires cfg.adaptive && Ticking(cfg, w) && Feasible(cfg, w, events) && TicksSlack(cfg, w, events)
    ensures After(cfg, w, events).maxWait == Doubled(cfg.baseMaxWait, w.maxWait, ActiveTicks(cfg, w, events))
    decreases |events|
  {
    if events != [] {
      var w' := Step(cfg, w, events[0]);
      StepTicks(cfg, w, events[0]);
      if events[0].Tick? {
        TickAdapts(cfg, w, events[0].ok);
      }
      if w.maxWait < cfg.baseMaxWait {
        DoubledStep(cfg.baseMaxWait, w.maxWait, ActiveTicks(cfg, w', events[1..]));
      }
      assert events[0].Tick? && w.activity == Active && w.maxWait >= cfg.baseMaxWait ==> w'.maxWait == w.maxWait;
      SlackRelaxes(cfg, w', events[1..]);
      DoubledAbove(cfg.baseMaxWait, w.maxWait);
      hide Step, Enabled, Doubled, Ticking, Slack;
    }
  }

  lemma DoubledAbove(base: nat, wait: nat)
    ensures wait >= base ==> forall n: nat :: Doubled(base, wait, n) == wait
  {
  }

  /** So enough pressed ticks bring the interval to half a second and keep it there ... */
  lemma PressureReachesMinimum<T>(cfg: Config, w: Worker<T>, events: seq<Event<T>>)
    requires cfg.adaptive && Ticking(cfg, w) && Feasible(cfg, w, events) && TicksPressed(cfg, w, events)
    requires ActiveTicks(cfg, w, events) > 0
    ensures After(cfg, w, events).maxWait == 500_000_000 <==>
            w.maxWait < Shl(500_000_001, ActiveTicks(cfg, w, events))
  {
    PressureTightens(cfg, w, events);
    ShrBelow(w.maxWait, 500_000_001, ActiveTicks(cfg, w, events));
    hide Feasible, After, TicksPressed, ActiveTicks, Shr, Shl;
  }

  /** ... and enough slack ticks bring a shortened one back to the base. */
  lemma SlackReachesBase<T>(cfg: Config, w: Worker<T>, events: seq<Event<T>>)
    requires cfg.adaptive && Ticking(cfg, w) && Feasible(cfg, w, events) && TicksSlack(cfg, w, events)
    requires w.maxWait <= cfg.baseMaxWait
    ensures After(cfg, w, events).maxWait == cfg.baseMaxWait <==>
            Shl(w.maxWait, ActiveTicks(cfg, w, events)) >= cfg.baseMaxWait
  {
    SlackRelaxes(cfg, w, events);
    ShlMonotone(w.maxWait, w.maxWait, ActiveTicks(cfg, w, events));
    hide Feasible, After, TicksSlack, ActiveTicks, Shl;
  }

  // ---------- A channel that stays full ----------

  /** An active worker about to wait a whole interval with a full channel. */
  ghost predicate BackedUp<T>(cfg: Config, w: Worker<T>) {
    && w.control == Top && w.activity == Active && |w.channel| == cfg.capacity && w.batch == []
    && w.now > 0 && w.period == w.maxWait && w.due == w.now + w.maxWait && 0 < w.maxWait <= cfg.WaitBound()
  }

  /** A submission that is dropped, and then the tick: the interval is halved. */
  lemma BackedUpRound<T>(cfg: Config, w: Worker<T>, item: T)
    requires Timely(cfg) && cfg.adaptive && cfg.capacity > 0 && BackedUp(cfg, w)
    ensures var round := [SubmitBatch([item]), Advance(w.maxWait)] + [Enter, Tick(true)];
            && Feasible(cfg, w, round) && BackedUp(cfg, After(cfg, w, round))
            && After(cfg, w, round).maxWait ==
               if w.maxWait >= 1_000_000_000 then w.maxWait / 2 else 500_000_000
  {
    var e0, e1 := SubmitBatch([item]), Advance(w.maxWait);
    AcceptAllFills(cfg, w, [item]);
    AcceptAllFrame(cfg, w, [item]);
    TwoSteps(cfg, w, e0, e1);
    var full := After(cfg, w, [e0, e1]);
    hide AcceptAll, After, Feasible;
    assert full == w.(channel := full.channel, accepted := full.accepted, submitted := full.submitted,
                      dropped := full.dropped, lastItem := w.now, now := w.due);
    var entered := Step(cfg, full, Enter);
    assert entered == full.(control := Select);
    TickAdapts(cfg, entered, true);
    AdaptedWaitBounds(cfg, |entered.channel| + |entered.batch|, entered.maxWait);
    hide AdaptedWait;
    TwoSteps(cfg, full, Enter, Tick(true));
    RunConcat(cfg, w, [e0, e1], [Enter, Tick(true)]);
  }

  lemma {:induction false} BackedUpRounds<T>(cfg: Config, w: Worker<T>, n: nat, item: T) returns (events: seq<Event<T>>)
    requires Timely(cfg) && cfg.adaptive && cfg.capacity > 0 && BackedUp(cfg, w)
    ensures Feasible(cfg, w, events) && BackedUp(cfg, After(cfg, w, events))
    ensures After(cfg, w, events).maxWait == Halved(w.maxWait, n)
    decreases n
  {
    if n == 0 {
      events := [];
    } else {
      var round := [SubmitBatch([item]), Advance(w.maxWait)] + [Enter, Tick(true)];
      BackedUpRound(cfg, w, item);
      var w' := After(cfg, w, round);
      HalvedStep(w.maxWait, n - 1);
      hide After, Feasible, BackedUp, Halved;
      var rest := BackedUpRounds(cfg, w', n - 1, item);
      RunConcat(cfg, w, round, rest);
      events := round + rest;
    }
  }

  /** From the start, for every n, a run exists that keeps the channel full over n ticks;
      it leaves the base interval halved n times, but at least half a second. */
  lemma FullChannelTightens<T>(cfg: Config, now: int, n: nat, item: T) returns (events: seq<Event<T>>)
    requires Timely(cfg) && cfg.adaptive && cfg.capacity > 0 && now > 0
    ensures Feasible(cfg, Start(cfg, now), events)
    ensures After(cfg, Start(cfg, now), events).maxWait == Halved(cfg.baseMaxWait, n)
  {
    var w: Worker<T> := Start(cfg, now);
    var fill := SubmitBatch(seq(cfg.capacity, _ => item));
    AcceptAllFills(cfg, w, fill.items);
    AcceptAllFrame(cfg, w, fill.items);
    OneStep(cfg, w, fill);
    var full := After(cfg, w, [fill]);
    assert BackedUp(cfg, full) && full.maxWait == cfg.baseMaxWait;
    hide AcceptAll, After, Feasible, BackedUp, Halved;
    var rest := BackedUpRounds(cfg, full, n, item);
    RunConcat(cfg, w, [fill], rest);
    events := [fill] + rest;
  }
}
