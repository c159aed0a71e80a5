/** The generic cognitive worker as a timed transition system: a bounded channel, a
    pending batch, a ticker, activity states and the drain on shutdown. Submitters,
    the clock and the worker loop interleave; `process` takes no time; a due tick is
    served before time advances. */
module Workers {

  import opened Common

  const HALF_SECOND := 500_000_000 // nanoseconds

  datatype Activity = Active | Idle | Dormant | Stopped

  datatype Config = Config(
    capacity: nat, batchSize: nat, adaptive: bool, baseMaxWait: nat,
    idleThreshold: nat, dormantThreshold: nat, idlePoll: nat, dormantPoll: nat)
  {
    /** Tickers need positive intervals. */
    predicate Valid() {
      baseMaxWait > 0 && idlePoll > 0 && dormantPoll > 0
    }

    /** The longest interval the flush ticker can ever run at. */
    function WaitBound(): nat {
      if adaptive then Max(baseMaxWait, HALF_SECOND) else baseMaxWait
    }

    function BatchBound(): nat {
      Max(1, batchSize)
    }
  }

  /** One call of `process`: its items, when each was taken, when it ran, the flush
      interval then in force, and whether it succeeded. */
  datatype Flush<T> = Flush(items: seq<T>, taken: seq<int>, at: int, wait: nat, shutdown: bool, ok: bool)

  datatype Control = Top | Select | Draining | Done

  datatype Worker<T> = Worker(
    channel: seq<T>, batch: seq<T>, taken: seq<int>,
    activity: Activity, lastItem: int, maxWait: nat, control: Control,
    now: int, due: int, period: nat,
    flushed: seq<Flush<T>>, accepted: seq<T>, submitted: nat, dropped: nat,
    processed: nat, batches: nat, errors: nat)

  function Start<T>(cfg: Config, now: int): Worker<T> {
    Worker([], [], [], Active, 0, cfg.baseMaxWait, Top, now, now + cfg.baseMaxWait, cfg.baseMaxWait,
           [], [], 0, 0, 0, 0, 0)
  }

  datatype Event<T> =
    | Submit(item: T)
    | SubmitBatch(items: seq<T>)
    | Advance(d: nat)
    | Enter              // the activity update at the head of the loop
    | Receive(ok: bool)  // an item from the channel; `ok` is the outcome of a flush
    | Tick(ok: bool)
    | Cancel
    | DrainOne
    | DrainEnd(ok: bool)

  // ---------- Steps ----------

  function Accept<T>(cfg: Config, w: Worker<T>, item: T): Worker<T> {
    if |w.channel| < cfg.capacity then
      w.(channel := w.channel + [item], accepted := w.accepted + [item], submitted := w.submitted + 1)
    else
      w.(dropped := w.dropped + 1, submitted := w.submitted + 1)
  }

  function AcceptAll<T>(cfg: Config, w: Worker<T>, items: seq<T>): Worker<T> {
    if items == [] then w
    else Accept(cfg, AcceptAll(cfg, w, items[..|items| - 1]), items[|items| - 1])
  }

  function SubmitStep<T>(cfg: Config, w: Worker<T>, item: T): Worker<T> {
    var w' := Accept(cfg, w, item);
    if |w.channel| < cfg.capacity then w'.(lastItem := w.now) else w'
  }

  function SubmitBatchStep<T>(cfg: Config, w: Worker<T>, items: seq<T>): Worker<T> {
    var w' := AcceptAll(cfg, w, items);
    if items == [] then w' else w'.(lastItem := w.now)
  }

  function ResetTicker<T>(w: Worker<T>, d: nat): Worker<T> {
    w.(due := w.now + d, period := d)
  }

  function BecomeActive<T>(w: Worker<T>): Worker<T> {
    if w.activity == Active then w else ResetTicker(w.(activity := Active), w.maxWait)
  }

  /** How long the worker has seen no item; never having seen one is dormant. */
  function IdleFor<T>(cfg: Config, w: Worker<T>): int {
    if w.lastItem == 0 then cfg.dormantThreshold + 1 else w.now - w.lastItem
  }

  function EnterStep<T>(cfg: Config, w: Worker<T>): Worker<T> {
    var idle := IdleFor(cfg, w);
    var w' :=
      if idle >= cfg.dormantThreshold then
        if w.activity == Dormant then w else ResetTicker(w.(activity := Dormant), cfg.dormantPoll)
      else if idle >= cfg.idleThreshold then
        if w.activity == Idle then w else ResetTicker(w.(activity := Idle), cfg.idlePoll)
      else
        BecomeActive(w);
    w'.(control := Select)
  }

  function FlushStep<T>(w: Worker<T>, ok: bool, shutdown: bool): Worker<T> {
    if w.batch == [] then w
    else
      var f := Flush(w.batch, w.taken, w.now, w.maxWait, shutdown, ok);
      var w' := w.(flushed := w.flushed + [f], batch := [], taken := []);
      if ok then w'.(processed := w.processed + |w.batch|, batches := w.batches + 1)
      else w'.(errors := w.errors + 1)
  }

  function Take<T>(w: Worker<T>): Worker<T>
    requires w.channel != []
  {
    w.(batch := w.batch + [w.channel[0]], taken := w.taken + [w.now], channel := w.channel[1..])
  }

  function ReceiveStep<T>(cfg: Config, w: Worker<T>, ok: bool): Worker<T>
    requires w.channel != []
  {
    var w' := Take(BecomeActive(w.(lastItem := w.now)));
    var w'' := if |w'.batch| >= cfg.batchSize then FlushStep(w', ok, false) else w';
    w''.(control := Top)
  }

  /** The adapted interval, from the queue length seen before the flush. */
  function AdaptedWait(cfg: Config, queueLen: nat, wait: nat): nat {
    if 4 * queueLen > 3 * cfg.capacity then Max(wait / 2, HALF_SECOND)
    else if 10 * queueLen < cfg.capacity && wait < cfg.baseMaxWait then Min(wait * 2, cfg.baseMaxWait)
    else wait
  }

  function AdaptStep<T>(cfg: Config, w: Worker<T>, queueLen: nat): Worker<T> {
    var wait := AdaptedWait(cfg, queueLen, w.maxWait);
    if cfg.adaptive && w.activity == Active && wait != w.maxWait then
      ResetTicker(w.(maxWait := wait), wait)
    else
      w
  }

  function TickStep<T>(cfg: Config, w: Worker<T>, ok: bool): Worker<T> {
    var queueLen := |w.channel| + |w.batch|;
    AdaptStep(cfg, FlushStep(w.(due := w.due + w.period), ok, false), queueLen).(control := Top)
  }

  function DrainEndStep<T>(w: Worker<T>, ok: bool): Worker<T> {
    FlushStep(w, ok, true).(activity := Stopped, control := Done)
  }

  predicate Enabled<T>(w: Worker<T>, e: Event<T>) {
    match e
    case Submit(_) => true
    case SubmitBatch(_) => true
    case Advance(d) => w.control == Done || (w.control != Draining && w.now + d <= w.due)
    case Enter => w.control == Top
    case Receive(_) => w.control == Select && w.channel != []
    case Tick(_) => w.control == Select && w.now == w.due
    case Cancel => w.control == Select
    case DrainOne => w.control == Draining && w.channel != []
    case DrainEnd(_) => w.control == Draining && w.channel == []
  }

  function Step<T>(cfg: Config, w: Worker<T>, e: Event<T>): Worker<T>
    requires Enabled(w, e)
  {
    match e
    case Submit(item) => SubmitStep(cfg, w, item)
    case SubmitBatch(items) => SubmitBatchStep(cfg, w, items)
    case Advance(d) => w.(now := w.now + d)
    case Enter => EnterStep(cfg, w)
    case Receive(ok) => ReceiveStep(cfg, w, ok)
    case Tick(ok) => TickStep(cfg, w, ok)
    case Cancel => w.(control := Draining)
    case DrainOne => Take(w)
    case DrainEnd(ok) => DrainEndStep(w, ok)
  }

  /** The events can happen in this order, each where it is enabled. */
  predicate Feasible<T>(cfg: Config, w: Worker<T>, events: seq<Event<T>>)
    decreases |events|
  {
    events == [] || (Enabled(w, events[0]) && Feasible(cfg, Step(cfg, w, events[0]), events[1..]))
  }

  function After<T>(cfg: Config, w: Worker<T>, events: seq<Event<T>>): Worker<T>
    requires Feasible(cfg, w, events)
    decreases |events|
  {
    if events == [] then w else After(cfg, Step(cfg, w, events[0]), events[1..])
  }

  // ---------- Conservation ----------

  function Items<T>(fs: seq<Flush<T>>): seq<T> {
    if fs == [] then [] else Items(fs[..|fs| - 1]) + fs[|fs| - 1].items
  }

  /** The calls of `process` that succeeded. */
  function Succeeded<T>(fs: seq<Flush<T>>): seq<Flush<T>> {
    if fs == [] then []
    else Succeeded(fs[..|fs| - 1]) + if fs[|fs| - 1].ok then [fs[|fs| - 1]] else []
  }

  /** Nothing accepted is lost, repeated or reordered; the rest is counted. The counters
      tell what `process` was given and how often it failed. */
  ghost predicate Balanced<T>(cfg: Config, w: Worker<T>) {
    && w.accepted == Items(w.flushed) + w.batch + w.channel
    && |w.accepted| + w.dropped == w.submitted
    && |w.channel| <= cfg.capacity
    && w.batches + w.errors == |w.flushed|
    && w.batches == |Succeeded(w.flushed)|
    && w.processed == |Items(Succeeded(w.flushed))|
    && (forall f | f in w.flushed && !f.shutdown :: 0 < |f.items| <= cfg.BatchBound())
  }

  ghost predicate Conserves<T>(cfg: Config, w: Worker<T>) {
    && Balanced(cfg, w)
    && (w.control == Top || w.control == Select ==> |w.batch| < cfg.BatchBound())
    && (w.control == Done ==> w.batch == [])
  }

  lemma AcceptBalanced<T>(cfg: Config, w: Worker<T>, item: T)
    requires Balanced(cfg, w)
    ensures Balanced(cfg, Accept(cfg, w, item))
  {
  }

  lemma {:induction false} AcceptAllBalanced<T>(cfg: Config, w: Worker<T>, items: seq<T>)
    requires Balanced(cfg, w)
    ensures Balanced(cfg, AcceptAll(cfg, w, items))
    ensures AcceptAll(cfg, w, items).batch == w.batch && AcceptAll(cfg, w, items).control == w.control
  {
    hide Balanced;
    if items != [] {
      AcceptAllBalanced(cfg, w, items[..|items| - 1]);
      AcceptBalanced(cfg, AcceptAll(cfg, w, items[..|items| - 1]), items[|items| - 1]);
    }
  }

  lemma ItemsSnoc<T>(fs: seq<Flush<T>>, f: Flush<T>)
    ensures Items(fs + [f]) == Items(fs) + f.items
  {
    assert (fs + [f])[..|fs + [f]| - 1] == fs;
  }

  lemma SucceededSnoc<T>(fs: seq<Flush<T>>, f: Flush<T>)
    ensures Succeeded(fs + [f]) == if f.ok then Succeeded(fs) + [f] else Succeeded(fs)
  {
    assert (fs + [f])[..|fs + [f]| - 1] == fs;
  }

  lemma FlushBalanced<T>(cfg: Config, w: Worker<T>, ok: bool, shutdown: bool)
    requires Balanced(cfg, w) && (shutdown || |w.batch| <= cfg.BatchBound())
    ensures Balanced(cfg, FlushStep(w, ok, shutdown))
  {
    hide Items, Succeeded;
    if w.batch != [] {
      var f := Flush(w.batch, w.taken, w.now, w.maxWait, shutdown, ok);
      ItemsSnoc(w.flushed, f);
      SucceededSnoc(w.flushed, f);
      ItemsSnoc(Succeeded(w.flushed), f);
    }
  }

  lemma TakeBalanced<T>(cfg: Config, w: Worker<T>)
    requires Balanced(cfg, w) && w.channel != []
    ensures Balanced(cfg, Take(w))
  {
  }

  lemma ReceiveConserves<T>(cfg: Config, w: Worker<T>, ok: bool)
    requires Conserves(cfg, w) && Enabled(w, Receive(ok))
    ensures Conserves(cfg, ReceiveStep(cfg, w, ok))
  {
    hide Items;
    var a := BecomeActive(w.(lastItem := w.now));
    SameBalance(cfg, w, a);
    TakeBalanced(cfg, a);
    var b := Take(a);
    assert |b.batch| == |w.batch| + 1;
    hide Balanced;
    if |b.batch| >= cfg.batchSize {
      FlushBalanced(cfg, b, ok, false);
      SameBalance(cfg, FlushStep(b, ok, false), FlushStep(b, ok, false).(control := Top));
    } else {
      SameBalance(cfg, b, b.(control := Top));
    }
  }

  lemma TickConserves<T>(cfg: Config, w: Worker<T>, ok: bool)
    requires Conserves(cfg, w) && Enabled(w, Tick(ok))
    ensures Conserves(cfg, TickStep(cfg, w, ok))
  {
    hide Items, Succeeded, AdaptedWait;
    FlushBalanced(cfg, w.(due := w.due + w.period), ok, false);
  }

  /** The clock, the ticker and the activity play no part in conservation. */
  lemma SameBalance<T>(cfg: Config, w: Worker<T>, w': Worker<T>)
    requires Balanced(cfg, w)
    requires w' == w.(activity := w'.activity, lastItem := w'.lastItem, maxWait := w'.maxWait, control := w'.control,
                      now := w'.now, due := w'.due, period := w'.period)
    ensures Balanced(cfg, w')
  {
  }

  lemma StepConserves<T>(cfg: Config, w: Worker<T>, e: Event<T>)
    requires Conserves(cfg, w) && Enabled(w, e)
    ensures Conserves(cfg, Step(cfg, w, e))
  {
    hide Items, Succeeded, AdaptedWait, Balanced;
    match e
    case Submit(item) =>
      AcceptBalanced(cfg, w, item);
      SameBalance(cfg, Accept(cfg, w, item), Step(cfg, w, e));
    case SubmitBatch(items) =>
      AcceptAllBalanced(cfg, w, items);
      SameBalance(cfg, AcceptAll(cfg, w, items), Step(cfg, w, e));
    case Receive(ok) => ReceiveConserves(cfg, w, ok);
    case Tick(ok) => TickConserves(cfg, w, ok);
    case DrainOne => TakeBalanced(cfg, w);
    case DrainEnd(ok) =>
      FlushBalanced(cfg, w, ok, true);
      SameBalance(cfg, FlushStep(w, ok, true), Step(cfg, w, e));
    case _ => SameBalance(cfg, w, Step(cfg, w, e));
  }

  /** In every interleaving, flushed batches, then the pending batch, then the
      channel are the accepted items in order, each once. */
  lemma {:induction false} RunConserves<T>(cfg: Config, w: Worker<T>, events: seq<Event<T>>)
    requires Conserves(cfg, w) && Feasible(cfg, w, events)
    ensures Conserves(cfg, After(cfg, w, events))
    decreases |events|
  {
    if events != [] {
      StepConserves(cfg, w, events[0]);
      RunConserves(cfg, Step(cfg, w, events[0]), events[1..]);
    }
  }

  lemma StartConserves<T>(cfg: Config, now: int)
    ensures Conserves<T>(cfg, Start(cfg, now))
  {
  }

  /** When the worker has shut down, everything accepted before the end of the
      drain has been handed to `process`. */
  lemma ShutdownFlushesAll<T>(cfg: Config, w: Worker<T>, ok: bool)
    requires Conserves(cfg, w) && Enabled(w, DrainEnd(ok))
    ensures Items(Step(cfg, w, DrainEnd(ok)).flushed) == w.accepted
    ensures Step(cfg, w, DrainEnd(ok)).batch == [] && Step(cfg, w, DrainEnd(ok)).control == Done
  {
    StepConserves(cfg, w, DrainEnd(ok));
  }
}
