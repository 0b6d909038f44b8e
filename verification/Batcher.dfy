/**
 * The batcher (packages/reporter/src/batcher.ts): a queue that is flushed when it is full or when a timer
 * fires, with the flushes chained one after another. The promise chain is the batches still waiting
 * behind the one being flushed.
 */
module Batcher {
  import opened Prelude

  datatype Settled<T> = Settled(batch: seq<T>, delivered: bool)

  datatype State<T> = State(
    queue: seq<T>,
    armed: bool,                // the timer is set
    chained: seq<seq<T>>,       // flushes that have not started
    active: Option<seq<T>>,     // the flush that has
    settled: seq<Settled<T>>)   // flushes that are over, in order

  datatype Event<T> =
    | Enqueue(item: T)
    | TimerFires
    | DrainCalled
    | FlushStarts                        // the chain reaches the next batch
    | FlushSettles(delivered: bool)      // flush returned, or threw and onFailure took the batch

  function Empty<T>(): State<T> {
    State([], false, [], None, [])
  }

  function Trigger<T>(s: State<T>): State<T> {
    if s.queue == [] then s.(armed := false)
    else s.(armed := false, queue := [], chained := s.chained + [s.queue])
  }

  /** A timer fires only while set, a flush starts only when none is active, and only an active one settles. */
  function Step<T>(s: State<T>, batchSize: int, e: Event<T>): State<T> {
    match e
    case Enqueue(item) =>
      var grown := s.(queue := s.queue + [item]);
      if |grown.queue| >= batchSize then Trigger(grown) else grown.(armed := true)
    case TimerFires => if s.armed then Trigger(s) else s
    case DrainCalled => Trigger(s)
    case FlushStarts =>
      if s.active.None? && s.chained != [] then s.(active := Some(s.chained[0]), chained := s.chained[1..]) else s
    case FlushSettles(delivered) =>
      if s.active.Some? then s.(active := None, settled := s.settled + [Settled(s.active.value, delivered)]) else s
  }

  function Run<T>(s: State<T>, batchSize: int, es: seq<Event<T>>): State<T>
    decreases |es|
  {
    if es == [] then s else Run(Step(s, batchSize, es[0]), batchSize, es[1..])
  }

  function Enqueued<T>(es: seq<Event<T>>): seq<T> {
    if es == [] then []
    else (if es[0].Enqueue? then [es[0].item] else []) + Enqueued(es[1..])
  }

  // ----- Invariants -----

  function Delivered<T>(settled: seq<Settled<T>>): (r: seq<seq<T>>)
    ensures |r| == |settled| && forall i :: 0 <= i < |r| ==> r[i] == settled[i].batch
  {
    seq(|settled|, i requires 0 <= i < |settled| => settled[i].batch)
  }

  /** Every batch ever cut, in order: settled, then active, then chained. */
  function Batches<T>(s: State<T>): seq<seq<T>> {
    Delivered(s.settled) + (if s.active.Some? then [s.active.value] else []) + s.chained
  }

  ghost predicate Sized<T>(batches: seq<seq<T>>, batchSize: int) {
    forall i :: 0 <= i < |batches| ==> 1 <= |batches[i]| <= Max(1, batchSize)
  }

  /** Batches have proper sizes, and the timer is set exactly while items wait that would not fill one. */
  ghost predicate Valid<T>(s: State<T>, batchSize: int) {
    Sized(Batches(s), batchSize) && (s.armed <==> s.queue != []) && |s.queue| <= Max(0, batchSize - 1)
  }

  lemma TriggerBatches<T>(s: State<T>)
    ensures Batches(Trigger(s)) == Batches(s) + if s.queue == [] then [] else [s.queue]
    ensures Trigger(s).queue == [] && !Trigger(s).armed
  {
  }

  /** `t` follows `s`: batches are only ever appended, and no item but the `added` ones comes or goes. */
  ghost predicate Follows<T>(s: State<T>, t: State<T>, added: seq<T>) {
    && Batches(s) <= Batches(t)
    && Flatten(Batches(t)) + t.queue == Flatten(Batches(s)) + s.queue + added
    && Delivered(s.settled) <= Delivered(t.settled)
  }

  lemma Triggered<T>(s: State<T>, batchSize: int)
    requires Sized(Batches(s), batchSize) && |s.queue| <= Max(1, batchSize)
    ensures Valid(Trigger(s), batchSize) && Follows(s, Trigger(s), [])
  {
    TriggerBatches(s);
    if s.queue != [] {
      FlattenSnoc(Batches(s), s.queue);
    }
  }

  lemma EnqueueKeeps<T>(s: State<T>, batchSize: int, item: T)
    requires Valid(s, batchSize)
    ensures var t := Step(s, batchSize, Enqueue(item)); Valid(t, batchSize) && Follows(s, t, [item])
  {
    var grown := s.(queue := s.queue + [item]);
    assert Batches(grown) == Batches(s) && Batches(grown.(armed := true)) == Batches(s);
    assert Flatten(Batches(s)) + grown.queue == Flatten(Batches(s)) + s.queue + [item];
    hide Batches, Delivered, Trigger;
    Triggered(grown, batchSize);
  }

  /** Starting and settling a flush moves a batch along, no more. */
  lemma FlushKeepsBatches<T>(s: State<T>, batchSize: int, e: Event<T>)
    requires e.FlushStarts? || e.FlushSettles?
    ensures Batches(Step(s, batchSize, e)) == Batches(s)
    ensures Delivered(s.settled) <= Delivered(Step(s, batchSize, e).settled)
  {
    if e.FlushStarts? && s.active.None? && s.chained != [] {
      assert s.chained == [s.chained[0]] + s.chained[1..];
    }
    if e.FlushSettles? && s.active.Some? {
      assert Delivered(s.settled + [Settled(s.active.value, e.delivered)]) == Delivered(s.settled) + [s.active.value];
    }
  }

  lemma FlushKeeps<T>(s: State<T>, batchSize: int, e: Event<T>)
    requires Valid(s, batchSize) && (e.FlushStarts? || e.FlushSettles?)
    ensures var t := Step(s, batchSize, e); Valid(t, batchSize) && Follows(s, t, [])
  {
    FlushKeepsBatches(s, batchSize, e);
    hide Batches, Delivered;
    assert Flatten(Batches(s)) + s.queue + [] == Flatten(Batches(s)) + s.queue;
  }

  /** One step keeps the invariant and loses nothing. */
  lemma StepKeeps<T>(s: State<T>, batchSize: int, e: Event<T>)
    requires Valid(s, batchSize)
    ensures var t := Step(s, batchSize, e);
            Valid(t, batchSize) && Follows(s, t, if e.Enqueue? then [e.item] else [])
  {
    match e
    case Enqueue(item) => EnqueueKeeps(s, batchSize, item);
    case TimerFires => Triggered(s, batchSize);
    case DrainCalled => Triggered(s, batchSize);
    case FlushStarts => FlushKeeps(s, batchSize, e);
    case FlushSettles(_) => FlushKeeps(s, batchSize, e);
  }

  // ----- Whole runs -----

  lemma FollowsTransitive<T>(r: State<T>, s: State<T>, t: State<T>, a: seq<T>, b: seq<T>)
    requires Follows(r, s, a) && Follows(s, t, b)
    ensures Follows(r, t, a + b)
  {
    hide Batches, Delivered;
    Associative(Flatten(Batches(r)) + r.queue, a, b);
  }

  /** Any interleaving from any valid state. */
  lemma {:induction false} RunKeeps<T>(s: State<T>, batchSize: int, es: seq<Event<T>>)
    requires Valid(s, batchSize)
    ensures Valid(Run(s, batchSize, es), batchSize) && Follows(s, Run(s, batchSize, es), Enqueued(es))
    decreases |es|
  {
    hide Step, Batches, Delivered;
    if es == [] {
      assert Flatten(Batches(s)) + s.queue + [] == Flatten(Batches(s)) + s.queue;
    } else {
      hide Follows, Valid;
      var t := Step(s, batchSize, es[0]);
      StepKeeps(s, batchSize, es[0]);
      RunKeeps(t, batchSize, es[1..]);
      FollowsTransitive(s, t, Run(t, batchSize, es[1..]),
                        if es[0].Enqueue? then [es[0].item] else [], Enqueued(es[1..]));
    }
  }

  /**
   * In every interleaving of enqueues, timers, flushes and failures: settled, active and chained batches
   * and the queue, end to end, are the enqueued items in order; every batch is of 1 to `batchSize` items;
   * the timer is set exactly when the queue is not empty.
   */
  lemma NothingLostOrReordered<T>(batchSize: int, es: seq<Event<T>>)
    ensures var s := Run(Empty(), batchSize, es);
            && Flatten(Batches(s)) + s.queue == Enqueued(es)
            && Sized(Batches(s), batchSize)
            && (s.armed <==> s.queue != [])
  {
    EmptyState<T>(batchSize);
    RunKeeps(Empty<T>(), batchSize, es);
    hide Batches, Run, Enqueued;
    assert [] + [] + Enqueued(es) == Enqueued(es);
  }

  lemma EmptyState<T>(batchSize: int)
    ensures Valid(Empty<T>(), batchSize) && Flatten(Batches(Empty<T>())) == []
  {
    assert Batches(Empty<T>()) == [];
  }

  /**
   * `drain` awaits the flushes chained when it is called. Once they are settled, everything enqueued
   * before the call is settled, in order, whatever happened in between.
   */
  lemma DrainDelivers<T>(batchSize: int, before: seq<Event<T>>, after: seq<Event<T>>)
    ensures var s := Step(Run(Empty(), batchSize, before), batchSize, DrainCalled);
            var t := Run(s, batchSize, after);
            |t.settled| >= |Batches(s)| ==> Enqueued(before) <= Flatten(Delivered(t.settled))
  {
    hide Step, Batches, Delivered, Run, Enqueued;
    var r := Run(Empty<T>(), batchSize, before);
    var s := Step(r, batchSize, DrainCalled);
    var t := Run(s, batchSize, after);
    NothingLostOrReordered(batchSize, before);
    EmptyState<T>(batchSize);
    RunKeeps(Empty<T>(), batchSize, before);
    StepKeeps(r, batchSize, DrainCalled);
    DrainEmpties(r, batchSize);
    RunKeeps(s, batchSize, after);
    assert Flatten(Batches(s)) == Enqueued(before) by {
      assert Flatten(Batches(s)) + [] == Flatten(Batches(s));
      assert Enqueued(before) + [] == Enqueued(before);
    }
    SettledFirst(t);
    if |t.settled| >= |Batches(s)| {
      var all, n := Delivered(t.settled), |Batches(s)|;
      assert all == Batches(s) + all[n..];
      FlattenConcat(Batches(s), all[n..]);
    }
  }

  lemma {:induction false} RunSnoc<T>(s: State<T>, batchSize: int, es: seq<Event<T>>, e: Event<T>)
    ensures Run(s, batchSize, es + [e]) == Step(Run(s, batchSize, es), batchSize, e)
    decreases |es|
  {
    hide Step;
    if es == [] {
      assert [] + [e] == [e] && [e][1..] == [];
    } else {
      assert (es + [e])[0] == es[0] && (es + [e])[1..] == es[1..] + [e];
      RunSnoc(Step(s, batchSize, es[0]), batchSize, es[1..], e);
    }
  }

  /**
   * When batches are cut, in every interleaving: by the enqueue that fills one, and by a timer or a drain that
   * finds anything waiting. Nothing else touches the queue.
   */
  lemma CutExactly<T>(batchSize: int, es: seq<Event<T>>, e: Event<T>)
    ensures var s, t := Run(Empty(), batchSize, es), Run(Empty(), batchSize, es + [e]);
            if e.Enqueue? && |s.queue| + 1 < batchSize then
              Batches(t) == Batches(s) && t.queue == s.queue + [e.item]
            else if e.Enqueue? then
              Batches(t) == Batches(s) + [s.queue + [e.item]] && t.queue == []
            else if (e.TimerFires? || e.DrainCalled?) && s.queue != [] then
              Batches(t) == Batches(s) + [s.queue] && t.queue == []
            else
              Batches(t) == Batches(s) && t.queue == s.queue
  {
    var s := Run(Empty<T>(), batchSize, es);
    NothingLostOrReordered(batchSize, es);
    RunSnoc(Empty<T>(), batchSize, es, e);
    hide Run;
    match e
    case Enqueue(item) =>
      var grown := s.(queue := s.queue + [item]);
      assert Batches(grown) == Batches(s) && Batches(grown.(armed := true)) == Batches(s);
      TriggerBatches(grown);
    case TimerFires => TriggerBatches(s);
    case DrainCalled => TriggerBatches(s);
    case _ => FlushKeepsBatches(s, batchSize, e);
  }

  /** The callbacks of the chain one after another, each ending as given. */
  function Rounds<T>(ends: seq<bool>): seq<Event<T>> {
    if ends == [] then [] else [FlushStarts] + ([FlushSettles(ends[0])] + Rounds(ends[1..]))
  }

  /** What they leave: every chained batch settled in its turn, with the outcome of its own flush. */
  function Ended<T>(chained: seq<seq<T>>, ends: seq<bool>): (r: seq<Settled<T>>)
    requires |chained| == |ends|
    ensures |r| == |ends| && forall i :: 0 <= i < |r| ==> r[i] == Settled(chained[i], ends[i])
  {
    seq(|ends|, i requires 0 <= i < |ends| => Settled(chained[i], ends[i]))
  }

  /** Flushes run one after another in the order of their batches. */
  lemma {:induction false} ChainSettles<T>(s: State<T>, batchSize: int, ends: seq<bool>)
    requires s.active.None? && |ends| == |s.chained|
    ensures Run(s, batchSize, Rounds(ends)) ==
            s.(chained := [], settled := s.settled + Ended(s.chained, ends))
    decreases |ends|
  {
    if ends == [] {
      assert s.settled + Ended(s.chained, ends) == s.settled;
    } else {
      var es := Rounds<T>(ends[1..]);
      var started := Step(s, batchSize, FlushStarts);
      var t := Step(started, batchSize, FlushSettles(ends[0]));
      var first := Settled(s.chained[0], ends[0]);
      assert t == s.(chained := s.chained[1..], settled := s.settled + [first]);
      hide Step;
      assert Rounds<T>(ends)[0] == FlushStarts && Rounds<T>(ends)[1..] == [FlushSettles(ends[0])] + es;
      assert ([FlushSettles(ends[0])] + es)[1..] == es;
      ChainSettles(t, batchSize, ends[1..]);
      assert Ended(s.chained, ends) == [first] + Ended(t.chained, ends[1..]);
      Associative(s.settled, [first], Ended(t.chained, ends[1..]));
    }
  }

  lemma SettledFirst<T>(s: State<T>)
    ensures Delivered(s.settled) <= Batches(s) && |Delivered(s.settled)| == |s.settled|
  {
  }

  lemma DrainEmpties<T>(s: State<T>, batchSize: int)
    ensures Step(s, batchSize, DrainCalled).queue == []
  {
  }

  // ----- The class -----

  class Batcher<T(==)> {
    const batchSize: int
    var queue: seq<T>
    var timer: bool
    var chained: seq<seq<T>>
    var active: Option<seq<T>>
    ghost var settled: seq<Settled<T>>

    ghost function Abstract(): State<T>
      reads this
    {
      State(queue, timer, chained, active, settled)
    }

    constructor (batchSize: int)
      ensures this.batchSize == batchSize && Abstract() == Empty() && Valid(Abstract(), batchSize)
    {
      this.batchSize := batchSize;
      queue, timer, chained, active, settled := [], false, [], None, [];
      new;
      EmptyState<T>(batchSize);
    }

    method EnqueueItem(item: T)
      requires Valid(Abstract(), batchSize)
      modifies this
      ensures Abstract() == Step(old(Abstract()), batchSize, Enqueue(item)) && Valid(Abstract(), batchSize)
    {
      StepKeeps(Abstract(), batchSize, Enqueue(item));
      hide Valid;
      queue := queue + [item];
      if |queue| >= batchSize {
        TriggerFlush();
        return;
      }
      if !timer { timer := true; }
    }

    /** Also what the timer calls when it fires. */
    method TriggerFlush()
      modifies this
      ensures Abstract() == Trigger(old(Abstract()))
    {
      if timer { timer := false; }
      if |queue| == 0 { return; }
      var batch := queue;
      queue := [];
      chained := chained + [batch];
    }

    /** The synchronous part of `drain`; what it then awaits is `Batches` of the state it leaves. */
    method Drain()
      requires Valid(Abstract(), batchSize)
      modifies this
      ensures Abstract() == Step(old(Abstract()), batchSize, DrainCalled) && Valid(Abstract(), batchSize)
    {
      StepKeeps(Abstract(), batchSize, DrainCalled);
      hide Valid;
      TriggerFlush();
    }

    /** The chain reaches its next callback, which hands the batch to `flush`. */
    method StartFlush() returns (batch: seq<T>)
      requires Valid(Abstract(), batchSize) && active.None? && chained != []
      modifies this
      ensures Abstract() == Step(old(Abstract()), batchSize, FlushStarts) && Valid(Abstract(), batchSize)
      ensures active == Some(batch) && 1 <= |batch| <= Max(1, batchSize)
    {
      StepKeeps(Abstract(), batchSize, FlushStarts);
      batch := chained[0];
      assert batch == Batches(Abstract())[|settled|];
      hide Valid;
      chained, active := chained[1..], Some(batch);
    }

    /** `flush` returned, or threw and `onFailure` took the batch. */
    method SettleFlush(delivered: bool)
      requires Valid(Abstract(), batchSize) && active.Some?
      modifies this
      ensures Abstract() == Step(old(Abstract()), batchSize, FlushSettles(delivered)) && Valid(Abstract(), batchSize)
    {
      StepKeeps(Abstract(), batchSize, FlushSettles(delivered));
      hide Valid;
      settled := settled + [Settled(active.value, delivered)];
      active := None;
    }
  }
}
