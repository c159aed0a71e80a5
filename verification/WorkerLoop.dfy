/** The worker object: the methods submitters call and the branches of its loop, each
    refining one step of the transition system. The clock, and whether `process`
    succeeds, are parameters. */
module WorkerLoops {

  import opened Workers

  /** Everything left in the channel, taken into the batch. */
  function TakeAll<T>(w: Worker<T>): Worker<T>
    decreases |w.channel|
  {
    if w.channel == [] then w else TakeAll(Take(w))
  }

  class GenericWorker<T> {
    const cfg: Config
    var channel: seq<T>
    var batch: seq<T>
    var activity: Activity
    var lastItem: int
    var maxWait: nat
    var due: int
    var period: nat
    var dropped: nat
    var processed: nat
    var batches: nat
    var errors: nat
    ghost var taken: seq<int>
    ghost var flushed: seq<Flush<T>>
    ghost var accepted: seq<T>
    ghost var submitted: nat

    ghost function View(now: int, control: Control): Worker<T>
      reads this
    {
      Worker(channel, batch, taken, activity, lastItem, maxWait, control, now, due, period,
             flushed, accepted, submitted, dropped, processed, batches, errors)
    }

    constructor (cfg: Config, now: int)
      ensures this.cfg == cfg && View(now, Top) == Start(cfg, now)
    {
      this.cfg := cfg;
      channel, batch, activity, lastItem := [], [], Active, 0;
      maxWait, due, period := cfg.baseMaxWait, now + cfg.baseMaxWait, cfg.baseMaxWait;
      dropped, processed, batches, errors := 0, 0, 0, 0;
      taken, flushed, accepted, submitted := [], [], [], 0;
    }

    /** The non-blocking send. */
    method Offer(item: T, ghost now: int, ghost control: Control) returns (ok: bool)
      modifies this
      ensures View(now, control) == Accept(cfg, old(View(now, control)), item)
      ensures ok <==> |old(channel)| < cfg.capacity
    {
      submitted := submitted + 1;
      if |channel| < cfg.capacity {
        channel := channel + [item];
        accepted := accepted + [item];
        return true;
      }
      dropped := dropped + 1;
      return false;
    }

    method SubmitItem(item: T, now: int, ghost control: Control) returns (ok: bool)
      modifies this
      ensures View(now, control) == SubmitStep(cfg, old(View(now, control)), item)
      ensures ok <==> |old(channel)| < cfg.capacity
    {
      ok := Offer(item, now, control);
      if ok {
        lastItem := now;
      }
    }

    method SubmitItems(items: seq<T>, now: int, ghost control: Control)
      modifies this
      ensures View(now, control) == SubmitBatchStep(cfg, old(View(now, control)), items)
    {
      ghost var w := View(now, control);
      for i := 0 to |items|
        invariant View(now, control) == AcceptAll(cfg, w, items[..i])
      {
        assert items[..i + 1][..i] == items[..i];
        var ok := Offer(items[i], now, control);
      }
      assert items[..|items|] == items;
      if |items| > 0 {
        lastItem := now;
      }
    }

    method Reset(now: int, d: nat, ghost control: Control)
      modifies this`due, this`period
      ensures View(now, control) == ResetTicker(old(View(now, control)), d)
    {
      due, period := now + d, d;
    }

    /** The head of the loop. */
    method UpdateActivity(now: int)
      modifies this
      ensures View(now, Select) == EnterStep(cfg, old(View(now, Top)))
    {
      var idleFor := if lastItem == 0 then cfg.dormantThreshold + 1 else now - lastItem;
      if idleFor >= cfg.dormantThreshold {
        if activity != Dormant {
          activity := Dormant;
          Reset(now, cfg.dormantPoll, Top);
        }
      } else if idleFor >= cfg.idleThreshold {
        if activity != Idle {
          activity := Idle;
          Reset(now, cfg.idlePoll, Top);
        }
      } else if activity != Active {
        activity := Active;
        Reset(now, maxWait, Top);
      }
    }

    method FlushBatch(now: int, ok: bool, shutdown: bool, ghost control: Control)
      modifies this
      ensures View(now, control) == FlushStep(old(View(now, control)), ok, shutdown)
    {
      if |batch| == 0 {
        return;
      }
      ghost var w := View(now, control);
      flushed := flushed + [Flush(batch, taken, now, maxWait, shutdown, ok)];
      assert View(now, control) == w.(flushed := flushed);
      if ok {
        processed := processed + |batch|;
        batches := batches + 1;
      } else {
        errors := errors + 1;
      }
      batch, taken := [], [];
    }

    /** Only the transition into Active resets the ticker. */
    method Wake(now: int)
      modifies this
      ensures View(now, Select) == BecomeActive(old(View(now, Select)))
    {
      var was := activity;
      activity := Active;
      if was != Active {
        Reset(now, maxWait, Select);
      }
    }

    method TakeItem(ghost now: int, ghost control: Control)
      requires channel != []
      modifies this
      ensures View(now, control) == Take(old(View(now, control)))
    {
      batch, channel := batch + [channel[0]], channel[1..];
      taken := taken + [now];
    }

    /** The item branch. */
    method OnItem(now: int, ok: bool)
      requires channel != []
      modifies this
      ensures View(now, Top) == ReceiveStep(cfg, old(View(now, Select)), ok)
    {
      hide FlushStep;
      ghost var w := View(now, Select);
      lastItem := now;
      assert View(now, Select) == w.(lastItem := now);
      Wake(now);
      TakeItem(now, Select);
      if |batch| >= cfg.batchSize {
        FlushBatch(now, ok, false, Select);
      }
      assert View(now, Top) == View(now, Select).(control := Top);
    }

    /** Adapt the interval to the pressure seen before the flush. */
    method Adapt(now: int, queueLen: nat)
      modifies this
      ensures View(now, Select) == AdaptStep(cfg, old(View(now, Select)), queueLen)
    {
      if cfg.adaptive && activity == Active {
        var newWait := maxWait;
        if 4 * queueLen > 3 * cfg.capacity {
          newWait := maxWait / 2;
          if newWait < HALF_SECOND {
            newWait := HALF_SECOND;
          }
        } else if 10 * queueLen < cfg.capacity && maxWait < cfg.baseMaxWait {
          newWait := maxWait * 2;
          if newWait > cfg.baseMaxWait {
            newWait := cfg.baseMaxWait;
          }
        }
        if newWait != maxWait {
          maxWait := newWait;
          Reset(now, newWait, Select);
        }
      }
    }

    /** The tick branch: flush, then adapt. */
    method OnTick(now: int, ok: bool)
      modifies this
      ensures View(now, Top) == TickStep(cfg, old(View(now, Select)), ok)
    {
      hide FlushStep, AdaptStep;
      ghost var w := View(now, Select);
      due := due + period;
      assert View(now, Select) == w.(due := w.due + w.period);
      var queueLen := |channel| + |batch|;
      FlushBatch(now, ok, false, Select);
      Adapt(now, queueLen);
      assert View(now, Top) == View(now, Select).(control := Top);
    }

    /** The shutdown branch when no submitter interferes: drain, then one flush. */
    method Shutdown(now: int, ok: bool)
      modifies this
      ensures View(now, Done) == DrainEndStep(TakeAll(old(View(now, Draining))), ok)
    {
      ghost var w := View(now, Draining);
      while channel != []
        invariant TakeAll(View(now, Draining)) == TakeAll(w)
        decreases |channel|
      {
        TakeItem(now, Draining);
      }
      FlushBatch(now, ok, true, Draining);
      activity := Stopped;
    }

    /** The final flush once the channel is empty. */
    method Finish(now: int, ok: bool)
      modifies this
      ensures View(now, Done) == DrainEndStep(old(View(now, Draining)), ok)
    {
      hide FlushStep;
      FlushBatch(now, ok, true, Draining);
      activity := Stopped;
      assert View(now, Done) == View(now, Draining).(activity := Stopped, control := Done);
    }

    method Serve(e: Event<T>, now: int, control: Control) returns (now': int, control': Control)
      requires Enabled(View(now, control), e)
      modifies this
      ensures View(now', control') == Step(cfg, old(View(now, control)), e)
    {
      hide SubmitStep, SubmitBatchStep, EnterStep, ReceiveStep, TickStep, Take, DrainEndStep;
      now', control' := now, control;
      match e
      case Submit(item) => var ok := SubmitItem(item, now, control);
      case SubmitBatch(items) => SubmitItems(items, now, control);
      case Advance(d) => now' := now + d;
      case Enter => UpdateActivity(now); control' := Select;
      case Receive(ok) => OnItem(now, ok); control' := Top;
      case Tick(ok) => OnTick(now, ok); control' := Top;
      case Cancel => control' := Draining;
      case DrainOne => TakeItem(now, control);
      case DrainEnd(ok) => Finish(now, ok); control' := Done;
    }

    /** The whole loop under any feasible interleaving of submits, the clock, items,
        ticks and cancellation. */
    method Run(events: seq<Event<T>>, start: int) returns (now: int, control: Control)
      requires Feasible(cfg, View(start, Top), events)
      modifies this
      ensures View(now, control) == After(cfg, old(View(start, Top)), events)
    {
      hide Enabled, Step;
      ghost var w := View(start, Top);
      now, control := start, Top;
      assert events[0..] == events;
      for i := 0 to |events|
        invariant Feasible(cfg, View(now, control), events[i..])
        invariant After(cfg, View(now, control), events[i..]) == After(cfg, w, events)
      {
        assert events[i..][1..] == events[i + 1..];
        now, control := Serve(events[i], now, control);
      }
      assert events[|events|..] == [];
    }
  }
}
