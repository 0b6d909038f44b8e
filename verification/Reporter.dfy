/**
 * The reporter's streaming pipeline (packages/reporter/src/index.ts): attempts are accumulated, finished
 * tests are enqueued by background tasks, the batcher's flushes append them to the run, and the end of the
 * suite drains everything. The steps may interleave in any way.
 */
module Reporter {
  import opened Prelude
  import opened Accumulator
  import B = Batcher

  type Entry = PendingTest

  datatype Opening = Opening | Opened | OpenFailed

  /** How `appendResults` ends. */
  datatype AppendOutcome = Appended | AuthError | OtherError

  datatype State = State(
    buffer: Buffer,
    enqueueing: seq<Entry>,        // enqueueDone tasks in flight
    batcher: B.State<Entry>,
    open: Opening,
    streamed: nat,
    streamFailed: nat,
    streamingDisabled: bool,
    ended: bool,                   // onEnd has drained the accumulator
    drainCalled: bool,
    history: History)

  /** What happened so far, for the statements below. */
  datatype History = History(
    calls: seq<Call>,              // recorded attempts
    surfaced: seq<Entry>,          // entries handed to enqueueDone
    dropped: seq<Entry>,           // entries whose enqueueDone failed
    awaited: Option<nat>)          // batches drain awaits, if nothing was being enqueued when it was called

  datatype Event =
    | TestEnds(call: Call)
    | OpenSettles(ok: bool)
    | EnqueueSettles(task: nat, ok: bool)
    | TimerFires
    | FlushStarts
    | FlushSettles(outcome: AppendOutcome)
    | RunEnds
    | DrainStarts

  function Initial(): State {
    State(Buffer(map[], []), [], B.Empty(), Opening, 0, 0, false, false, false, History([], [], [], None))
  }

  function Surface(s: State, entries: seq<Entry>): State {
    s.(enqueueing := s.enqueueing + entries, history := s.history.(surfaced := s.history.surfaced + entries))
  }

  /** The flush callback and, if it throws, `onFailure`: which counter takes the batch. */
  function Settle(s: State, batchSize: int, outcome: AppendOutcome): State
    requires s.batcher.active.Some?
  {
    var n := |s.batcher.active.value|;
    var sent := !s.streamingDisabled && s.open == Opened && outcome == Appended;
    var next := s.(batcher := B.Step(s.batcher, batchSize, B.FlushSettles(sent)));
    if s.streamingDisabled || s.open != Opened then next.(streamFailed := s.streamFailed + n)
    else
      match outcome
      case Appended => next.(streamed := s.streamed + n)
      case AuthError => next.(streamingDisabled := true, streamFailed := s.streamFailed + n)
      case OtherError => next.(streamFailed := s.streamFailed + n)
  }

  function Step(s: State, batchSize: int, e: Event): State
    requires s.buffer.Valid()
    ensures Step(s, batchSize, e).buffer.Valid()
  {
    match e
    case TestEnds(call) =>
      if s.ended then s
      else
        var (buffer, done) := Record(s.buffer, call);
        var next := s.(buffer := buffer, history := s.history.(calls := s.history.calls + [call]));
        Surface(next, if done.Some? then [done.value] else [])
    case OpenSettles(ok) => if s.open == Opening then s.(open := if ok then Opened else OpenFailed) else s
    case EnqueueSettles(i, ok) =>
      if i >= |s.enqueueing| then s
      else
        var entry := s.enqueueing[i];
        var next := s.(enqueueing := s.enqueueing[..i] + s.enqueueing[i + 1..]);
        if ok then next.(batcher := B.Step(s.batcher, batchSize, B.Enqueue(entry)))
        else next.(streamFailed := s.streamFailed + 1, history := s.history.(dropped := s.history.dropped + [entry]))
    case TimerFires => s.(batcher := B.Step(s.batcher, batchSize, B.TimerFires))
    case FlushStarts => s.(batcher := B.Step(s.batcher, batchSize, B.FlushStarts))
    case FlushSettles(outcome) =>
      // the callback first awaits the open
      if s.batcher.active.None? || s.open == Opening then s else Settle(s, batchSize, outcome)
    case RunEnds =>
      if s.ended then s else Surface(s.(ended := true, buffer := Buffer(map[], [])), Drained(s.buffer))
    case DrainStarts =>
      if !s.ended || s.drainCalled then s
      else
        var batcher := B.Step(s.batcher, batchSize, B.DrainCalled);
        var awaited := if s.enqueueing == [] then Some(|B.Batches(batcher)|) else None;
        s.(batcher := batcher, drainCalled := true, history := s.history.(awaited := awaited))
  }

  function Run(s: State, batchSize: int, es: seq<Event>): (t: State)
    requires s.buffer.Valid()
    ensures t.buffer.Valid()
    decreases |es|
  {
    if es == [] then s else Run(Step(s, batchSize, es[0]), batchSize, es[1..])
  }

  // ----- The invariant -----

  /** How many items the settled flushes took that did, or did not, deliver. */
  function Taken(settled: seq<B.Settled<Entry>>, delivered: bool): nat {
    if settled == [] then 0
    else
      var last := settled[|settled| - 1];
      Taken(settled[..|settled| - 1], delivered) + if last.delivered == delivered then |last.batch| else 0
  }

  /** Every entry in the batcher, in the order it was enqueued. */
  function InBatcher(b: B.State<Entry>): seq<Entry> {
    Flatten(B.Batches(b)) + b.queue
  }

  ghost predicate Balanced(surfaced: seq<Entry>, dropped: seq<Entry>, enqueueing: seq<Entry>, inBatcher: seq<Entry>) {
    multiset(surfaced) == multiset(dropped) + multiset(enqueueing) + multiset(inBatcher)
  }

  /** Each surfaced entry is in exactly one place. */
  ghost predicate Conserved(s: State) {
    Balanced(s.history.surfaced, s.history.dropped, s.enqueueing, InBatcher(s.batcher))
  }

  lemma BalancedSurface(surfaced: seq<Entry>, dropped: seq<Entry>, enqueueing: seq<Entry>, inBatcher: seq<Entry>,
                        more: seq<Entry>)
    requires Balanced(surfaced, dropped, enqueueing, inBatcher)
    ensures Balanced(surfaced + more, dropped, enqueueing + more, inBatcher)
  {
    assert multiset(enqueueing + more) == multiset(enqueueing) + multiset(more);
    assert multiset(surfaced + more) == multiset(surfaced) + multiset(more);
  }

  /** One task settles: its entry moves into the batcher, or is dropped. */
  lemma BalancedSettle(surfaced: seq<Entry>, dropped: seq<Entry>, enqueueing: seq<Entry>, inBatcher: seq<Entry>,
                       i: nat, after: seq<Entry>)
    requires Balanced(surfaced, dropped, enqueueing, inBatcher) && i < |enqueueing|
    requires multiset(after) == multiset(inBatcher) + multiset([enqueueing[i]])
    ensures Balanced(surfaced, dropped, enqueueing[..i] + enqueueing[i + 1..], after)
    ensures Balanced(surfaced, dropped + [enqueueing[i]], enqueueing[..i] + enqueueing[i + 1..], inBatcher)
  {
    assert enqueueing == enqueueing[..i] + [enqueueing[i]] + enqueueing[i + 1..];
    assert multiset(enqueueing) == multiset(enqueueing[..i] + enqueueing[i + 1..]) + multiset([enqueueing[i]]);
    assert multiset(dropped + [enqueueing[i]]) == multiset(dropped) + multiset([enqueueing[i]]);
  }

  ghost predicate Counted(s: State) {
    && s.streamed == Taken(s.batcher.settled, true)
    && s.streamFailed == |s.history.dropped| + Taken(s.batcher.settled, false)
  }

  /** The accumulator saw exactly the recorded calls; at the end its leftovers surface too. */
  ghost predicate Accumulated(s: State) {
    var run := RunAll(s.history.calls);
    if s.ended then s.history.surfaced == run.emitted + Drained(run.buffer)
    else s.history.surfaced == run.emitted && s.buffer == run.buffer
  }

  /** Once a clean drain has begun nothing is left outside the awaited batches. */
  ghost predicate Awaited(s: State) {
    s.history.awaited.Some? ==>
      s.ended && s.drainCalled && s.enqueueing == [] && s.batcher.queue == [] && !s.batcher.armed
      && |B.Batches(s.batcher)| == s.history.awaited.value
  }

  ghost predicate Valid(s: State, batchSize: int) {
    s.buffer.Valid() && B.Valid(s.batcher, batchSize)
    && Conserved(s) && Counted(s) && Accumulated(s) && Awaited(s)
  }

  lemma InitialValid(batchSize: int)
    ensures Valid(Initial(), batchSize)
  {
    B.EmptyState<Entry>(batchSize);
    assert InBatcher(B.Empty()) == [];
  }

  lemma TakenSnoc(settled: seq<B.Settled<Entry>>, last: B.Settled<Entry>, delivered: bool)
    ensures Taken(settled + [last], delivered) ==
            Taken(settled, delivered) + if last.delivered == delivered then |last.batch| else 0
  {
    assert (settled + [last])[..|settled|] == settled;
  }

  /** What a batcher step changes that the reporter can see. */
  lemma BatcherStep(b: B.State<Entry>, batchSize: int, e: B.Event<Entry>)
    requires B.Valid(b, batchSize)
    ensures var c := B.Step(b, batchSize, e);
            && B.Valid(c, batchSize)
            && multiset(InBatcher(c)) ==
                 (if e.Enqueue? then multiset(InBatcher(b)) + multiset([e.item]) else multiset(InBatcher(b)))
            && (!e.FlushSettles? ==> c.settled == b.settled)
            && (e.DrainCalled? ==> c.queue == [] && !c.armed)
            && (!e.Enqueue? && b.queue == [] && !b.armed ==> B.Batches(c) == B.Batches(b) && c.queue == [] && !c.armed)
            && (e.FlushSettles? && b.active.Some? ==> c.settled == b.settled + [B.Settled(b.active.value, e.delivered)])
  {
    B.StepKeeps(b, batchSize, e);
    BatcherIdle(b, batchSize, e);
    BatcherFields(b, batchSize, e);
    hide B.Step, B.Batches, B.Valid, B.Delivered;
    var c := B.Step(b, batchSize, e);
    assert InBatcher(c) == InBatcher(b) + if e.Enqueue? then [e.item] else [];
    assert InBatcher(b) + [] == InBatcher(b);
  }

  lemma BatcherFields(b: B.State<Entry>, batchSize: int, e: B.Event<Entry>)
    ensures var c := B.Step(b, batchSize, e);
            && (!e.FlushSettles? ==> c.settled == b.settled)
            && (e.DrainCalled? ==> c.queue == [] && !c.armed)
            && (e.FlushSettles? && b.active.Some? ==> c.settled == b.settled + [B.Settled(b.active.value, e.delivered)])
  {
  }

  lemma BatcherIdle(b: B.State<Entry>, batchSize: int, e: B.Event<Entry>)
    requires B.Valid(b, batchSize)
    ensures var c := B.Step(b, batchSize, e);
            !e.Enqueue? && b.queue == [] && !b.armed ==> B.Batches(c) == B.Batches(b) && c.queue == [] && !c.armed
  {
    B.TriggerBatches(b);
    if e.FlushStarts? || e.FlushSettles? {
      B.FlushKeepsBatches(b, batchSize, e);
    }
  }

  lemma RunAllSnoc(calls: seq<Call>, call: Call)
    ensures var before := RunAll(calls);
            var (buffer, done) := Record(before.buffer, call);
            RunAll(calls + [call]) == Accumulator.Run(buffer, before.emitted + if done.Some? then [done.value] else [])
  {
    hide Record;
    assert (calls + [call])[..|calls|] == calls;
  }

  lemma TestEndsKeeps(s: State, batchSize: int, call: Call)
    requires Valid(s, batchSize)
    ensures Valid(Step(s, batchSize, TestEnds(call)), batchSize)
  {
    hide Record, B.Valid, B.Batches, InBatcher, Taken, RunAll, Drained, Balanced, Buffer.Valid;
    if !s.ended {
      var done := Record(s.buffer, call).1;
      var entries := if done.Some? then [done.value] else [];
      RunAllSnoc(s.history.calls, call);
      BalancedSurface(s.history.surfaced, s.history.dropped, s.enqueueing, InBatcher(s.batcher), entries);
    }
  }

  lemma RunEndsKeeps(s: State, batchSize: int)
    requires Valid(s, batchSize)
    ensures Valid(Step(s, batchSize, RunEnds), batchSize)
  {
    hide B.Valid, B.Batches, InBatcher, Taken, RunAll, Drained, Balanced;
    if !s.ended {
      BalancedSurface(s.history.surfaced, s.history.dropped, s.enqueueing, InBatcher(s.batcher), Drained(s.buffer));
    }
  }

  lemma EnqueueSettlesKeeps(s: State, batchSize: int, i: nat, ok: bool)
    requires Valid(s, batchSize)
    ensures Valid(Step(s, batchSize, EnqueueSettles(i, ok)), batchSize)
  {
    hide B.Valid, B.Step, B.Batches, InBatcher, Taken, RunAll, Drained, Balanced, Buffer.Valid;
    if i < |s.enqueueing| {
      var e := B.Enqueue(s.enqueueing[i]);
      BatcherStep(s.batcher, batchSize, e);
      BalancedSettle(s.history.surfaced, s.history.dropped, s.enqueueing, InBatcher(s.batcher), i,
                     InBatcher(B.Step(s.batcher, batchSize, e)));
    }
  }

  lemma BalancedSame(surfaced: seq<Entry>, dropped: seq<Entry>, enqueueing: seq<Entry>, inBatcher: seq<Entry>,
                     after: seq<Entry>)
    requires Balanced(surfaced, dropped, enqueueing, inBatcher) && multiset(after) == multiset(inBatcher)
    ensures Balanced(surfaced, dropped, enqueueing, after)
  {
  }

  lemma FlushSettlesKeeps(s: State, batchSize: int, outcome: AppendOutcome)
    requires Valid(s, batchSize)
    ensures Valid(Step(s, batchSize, FlushSettles(outcome)), batchSize)
  {
    hide B.Valid, B.Step, B.Batches, InBatcher, Taken, RunAll, Drained, Balanced, Buffer.Valid;
    if s.batcher.active.Some? && s.open != Opening {
      var sent := !s.streamingDisabled && s.open == Opened && outcome == Appended;
      var e := B.FlushSettles(sent);
      BatcherStep(s.batcher, batchSize, e);
      BalancedSame(s.history.surfaced, s.history.dropped, s.enqueueing, InBatcher(s.batcher),
                   InBatcher(B.Step(s.batcher, batchSize, e)));
      TakenSnoc(s.batcher.settled, B.Settled(s.batcher.active.value, sent), true);
      TakenSnoc(s.batcher.settled, B.Settled(s.batcher.active.value, sent), false);
    }
  }

  lemma QuietKeeps(s: State, batchSize: int, e: Event)
    requires Valid(s, batchSize) && (e.TimerFires? || e.FlushStarts? || e.DrainStarts? || e.OpenSettles?)
    ensures Valid(Step(s, batchSize, e), batchSize)
  {
    hide B.Valid, B.Step, B.Batches, InBatcher, Taken, RunAll, Drained, Balanced, Buffer.Valid;
    if !e.OpenSettles? {
      var b := if e.TimerFires? then B.TimerFires else if e.FlushStarts? then B.FlushStarts else B.DrainCalled;
      BatcherStep(s.batcher, batchSize, b);
      BalancedSame(s.history.surfaced, s.history.dropped, s.enqueueing, InBatcher(s.batcher),
                   InBatcher(B.Step(s.batcher, batchSize, b)));
    }
  }

  lemma StepKeeps(s: State, batchSize: int, e: Event)
    requires Valid(s, batchSize)
    ensures Valid(Step(s, batchSize, e), batchSize)
  {
    hide Valid, Step;
    match e
    case TestEnds(call) => TestEndsKeeps(s, batchSize, call);
    case RunEnds => RunEndsKeeps(s, batchSize);
    case EnqueueSettles(i, ok) => EnqueueSettlesKeeps(s, batchSize, i, ok);
    case FlushSettles(outcome) => FlushSettlesKeeps(s, batchSize, outcome);
    case _ => QuietKeeps(s, batchSize, e);
  }

  lemma {:induction false} RunKeeps(s: State, batchSize: int, es: seq<Event>)
    requires Valid(s, batchSize)
    ensures Valid(Run(s, batchSize, es), batchSize)
    decreases |es|
  {
    if es != [] {
      StepKeeps(s, batchSize, es[0]);
      assert s.buffer.Valid() && Step(s, batchSize, es[0]).buffer.Valid();
      hide Valid, Step;
      RunKeeps(Step(s, batchSize, es[0]), batchSize, es[1..]);
    }
  }

  lemma ValidParts(s: State, batchSize: int)
    requires Valid(s, batchSize)
    ensures s.buffer.Valid() && B.Valid(s.batcher, batchSize)
  {
    hide B.Valid, Buffer.Valid, Conserved, Counted, Accumulated, Awaited;
  }

  /** The state an event leads to, spelled out for each of the reporter's own events. */
  lemma Following(s: State, batchSize: int, e: Event) returns (t: State)
    requires Valid(s, batchSize)
    ensures t == Step(s, batchSize, e) && Valid(t, batchSize)
    ensures s.buffer.Valid() && B.Valid(s.batcher, batchSize)
    ensures e.TestEnds? && !s.ended ==>
              var (buffer, done) := Record(s.buffer, e.call);
              var entries := if done.Some? then [done.value] else [];
              t == s.(buffer := buffer, enqueueing := s.enqueueing + entries,
                      history := s.history.(calls := s.history.calls + [e.call],
                                           surfaced := s.history.surfaced + entries))
    ensures e.EnqueueSettles? && e.task < |s.enqueueing| ==>
              var left, entry := s.enqueueing[..e.task] + s.enqueueing[e.task + 1..], s.enqueueing[e.task];
              t == if e.ok then s.(enqueueing := left, batcher := B.Step(s.batcher, batchSize, B.Enqueue(entry)))
                   else s.(enqueueing := left, streamFailed := s.streamFailed + 1,
                           history := s.history.(dropped := s.history.dropped + [entry]))
    ensures e.FlushSettles? && s.batcher.active.Some? && s.open != Opening ==> t == Settle(s, batchSize, e.outcome)
    ensures e.RunEnds? && !s.ended ==>
              t == s.(ended := true, buffer := Buffer(map[], []), enqueueing := s.enqueueing + Drained(s.buffer),
                      history := s.history.(surfaced := s.history.surfaced + Drained(s.buffer)))
    ensures e.DrainStarts? && s.ended && !s.drainCalled ==>
              var batcher := B.Step(s.batcher, batchSize, B.DrainCalled);
              t == s.(batcher := batcher, drainCalled := true,
                      history := s.history.(awaited := if s.enqueueing == [] then Some(|B.Batches(batcher)|) else None))
  {
    hide Valid, Record, Drained, Settle, B.Step, B.Batches, B.Valid, Buffer.Valid;
    ValidParts(s, batchSize);
    StepKeeps(s, batchSize, e);
    t := Step(s, batchSize, e);
  }

  // ----- Whole reporter runs -----

  lemma {:induction false} TakenTotal(settled: seq<B.Settled<Entry>>)
    ensures Taken(settled, true) + Taken(settled, false) == |Flatten(B.Delivered(settled))|
    decreases |settled|
  {
    if settled != [] {
      var front, last := settled[..|settled| - 1], settled[|settled| - 1];
      TakenTotal(front);
      assert B.Delivered(settled) == B.Delivered(front) + [last.batch];
      FlattenSnoc(B.Delivered(front), last.batch);
    }
  }

  /** At every step each surfaced test is counted, or waits in exactly one place. */
  lemma EveryTestAccounted(batchSize: int, es: seq<Event>)
    ensures var s := Run(Initial(), batchSize, es);
            s.streamed + s.streamFailed + |s.enqueueing| + |s.batcher.queue| + |Flatten(s.batcher.chained)|
            + (if s.batcher.active.Some? then |s.batcher.active.value| else 0)
            == |s.history.surfaced|
  {
    InitialValid(batchSize);
    RunKeeps(Initial(), batchSize, es);
    var s := Run(Initial(), batchSize, es);
    hide Run, Step, B.Valid, RunAll, Taken, Awaited, Accumulated, Drained;
    var b := s.batcher;
    var active := if b.active.Some? then [b.active.value] else [];
    TakenTotal(b.settled);
    FlattenConcat(B.Delivered(b.settled) + active, b.chained);
    FlattenConcat(B.Delivered(b.settled), active);
    assert |Flatten(active)| == if b.active.Some? then |b.active.value| else 0 by {
      if b.active.Some? {
        assert Flatten(active) == b.active.value + Flatten([]);
      }
    }
    assert |multiset(s.history.surfaced)| == |s.history.surfaced|;
    assert |multiset(s.history.dropped)| == |s.history.dropped|;
    assert |multiset(s.enqueueing)| == |s.enqueueing|;
    assert |multiset(InBatcher(b))| == |InBatcher(b)|;
  }

  /** `onEnd` found nothing being enqueued, drained, and every flush it awaited is over. */
  predicate Finished(s: State) {
    s.history.awaited.Some? && |s.batcher.settled| >= s.history.awaited.value
  }

  /**
   * Once a clean end is reached, every surfaced test is counted as streamed or failed, and each is in
   * exactly one settled flush or was dropped.
   */
  lemma CleanEndLosesNothing(batchSize: int, es: seq<Event>)
    ensures var s := Run(Initial(), batchSize, es);
            Finished(s) ==>
              && s.streamed + s.streamFailed == |s.history.surfaced|
              && multiset(s.history.surfaced) ==
                   multiset(s.history.dropped) + multiset(Flatten(B.Delivered(s.batcher.settled)))
  {
    EveryTestAccounted(batchSize, es);
    InitialValid(batchSize);
    RunKeeps(Initial(), batchSize, es);
    var s := Run(Initial(), batchSize, es);
    hide Run, Step, RunAll, Drained, Taken;
    if Finished(s) {
      assert B.Batches(s.batcher) == B.Delivered(s.batcher.settled);
      assert s.batcher.active.None? && s.batcher.chained == [];
      assert InBatcher(s.batcher) == Flatten(B.Delivered(s.batcher.settled));
      assert multiset(s.enqueueing) == multiset{};
    }
  }

  lemma {:induction false} EntriesConcat(id: string, a: seq<Entry>, b: seq<Entry>)
    ensures EntriesOf(id, a + b) == EntriesOf(id, a) + EntriesOf(id, b)
    decreases |b|
  {
    hide EntriesOf;
    assert EntriesOf(id, []) == [] by { NothingRecorded(id); }
    if b == [] {
      assert a + b == a;
    } else {
      var front, last := b[..|b| - 1], b[|b| - 1];
      EntriesConcat(id, a, front);
      assert a + b == (a + front) + [last] && b == front + [last];
      EntriesSnoc(id, a + front, last);
      EntriesSnoc(id, front, last);
    }
  }

  /** What the final drain of the accumulator holds of one test. */
  lemma {:induction false} DrainedOf(id: string, b: Buffer, n: nat)
    requires b.Valid() && n <= |b.order|
    ensures EntriesOf(id, Drained(b)[..n]) == if id in b.order[..n] then [PendingOf(id, b)] else []
    decreases n
  {
    hide PendingOf, Buffer.Valid;
    if n > 0 {
      DrainedOf(id, b, n - 1);
      var d := Drained(b);
      assert d[..n] == d[..n - 1] + [d[n - 1]];
      DrainedHead(id, b, n);
      hide EntriesOf, Drained;
      EntriesSnoc(id, d[..n - 1], d[n - 1]);
    }
  }

  lemma DrainedHead(id: string, b: Buffer, n: nat)
    requires b.Valid() && 0 < n <= |b.order|
    ensures Drained(b)[n - 1].test.id == b.order[n - 1]
    ensures id in b.order[..n] <==> id in b.order[..n - 1] || b.order[n - 1] == id
    ensures b.order[n - 1] == id ==> Drained(b)[n - 1].results == PendingOf(id, b) && id !in b.order[..n - 1]
  {
    assert b.order[n - 1] in b.order;
    assert b.order[..n] == b.order[..n - 1] + [b.order[n - 1]];
  }

  /** Emitted and then drained entries carry all the recorded attempts of a test in order. */
  lemma EmittedAndDrained(id: string, calls: seq<Call>)
    ensures var run := RunAll(calls);
            Flatten(EntriesOf(id, run.emitted + Drained(run.buffer))) == Results(CallsOf(id, calls))
  {
    var run := RunAll(calls);
    var b := run.buffer;
    assert id in b.order <==> id in b.pending;
    hide RunAll, EntriesOf, Drained, CallsOf, Results, Buffer.Valid;
    NothingLost(id, calls);
    EntriesConcat(id, run.emitted, Drained(b));
    DrainedOf(id, b, |b.order|);
    assert Drained(b)[..|b.order|] == Drained(b) && b.order[..|b.order|] == b.order;
    var tail := EntriesOf(id, Drained(b));
    FlattenConcat(EntriesOf(id, run.emitted), tail);
    hide PendingOf;
    if id in b.order {
      FlattenOne(PendingOf(id, b));
    }
  }

  lemma FlattenOne<T>(x: seq<T>)
    ensures Flatten([x]) == x
  {
    assert Flatten([x]) == x + Flatten([]);
  }

  /** After the end of the run, the surfaced entries of a test carry all its recorded attempts in order. */
  lemma EveryAttemptSurfaces(batchSize: int, es: seq<Event>, id: string)
    ensures var s := Run(Initial(), batchSize, es);
            s.ended ==> Flatten(EntriesOf(id, s.history.surfaced)) == Results(CallsOf(id, s.history.calls))
  {
    InitialValid(batchSize);
    RunKeeps(Initial(), batchSize, es);
    hide Run, RunAll, EntriesOf, Drained, CallsOf, Results;
    EmittedAndDrained(id, Run(Initial(), batchSize, es).history.calls);
  }

  // ----- What the events say -----

  lemma {:induction false} RunSnoc(s: State, batchSize: int, es: seq<Event>, e: Event)
    requires s.buffer.Valid()
    ensures Run(s, batchSize, es + [e]) == Step(Run(s, batchSize, es), batchSize, e)
    decreases |es|
  {
    hide Step, Buffer.Valid;
    if es == [] {
      assert [] + [e] == [e] && [e][1..] == [];
    } else {
      assert (es + [e])[0] == es[0] && (es + [e])[1..] == es[1..] + [e];
      assert Step(s, batchSize, es[0]).buffer.Valid();
      RunSnoc(Step(s, batchSize, es[0]), batchSize, es[1..], e);
    }
  }

  lemma {:induction false} RunConcat(s: State, batchSize: int, es: seq<Event>, fs: seq<Event>)
    requires s.buffer.Valid()
    ensures Run(s, batchSize, es + fs) == Run(Run(s, batchSize, es), batchSize, fs)
    decreases |es|
  {
    hide Step, Buffer.Valid;
    if es == [] {
      assert [] + fs == fs;
    } else {
      assert (es + fs)[0] == es[0] && (es + fs)[1..] == es[1..] + fs;
      assert Step(s, batchSize, es[0]).buffer.Valid();
      RunConcat(Step(s, batchSize, es[0]), batchSize, es[1..], fs);
    }
  }

  /** The attempts that end before the suite does. */
  function Attempts(es: seq<Event>): seq<Call> {
    if es == [] then []
    else
      var front, last := es[..|es| - 1], es[|es| - 1];
      Attempts(front) + if last.TestEnds? && RunEnds !in front then [last.call] else []
  }

  /** How opening the run went, as its first answer says. */
  function OpenAs(es: seq<Event>): Opening {
    if es == [] then Opening
    else
      var before, last := OpenAs(es[..|es| - 1]), es[|es| - 1];
      if before == Opening && last.OpenSettles? then (if last.ok then Opened else OpenFailed) else before
  }

  /** The entries whose tasks ended well, or not, in the order in which they ended. */
  function Tasked(batchSize: int, es: seq<Event>, ok: bool): seq<Entry> {
    if es == [] then []
    else
      var front, last := es[..|es| - 1], es[|es| - 1];
      var waiting := Run(Initial(), batchSize, front).enqueueing;
      Tasked(batchSize, front, ok)
      + if last.EnqueueSettles? && last.task < |waiting| && last.ok == ok then [waiting[last.task]] else []
  }

  /** How the flushes ended, in the order in which they did; none ends before the open has. */
  function Outcomes(batchSize: int, es: seq<Event>): seq<AppendOutcome> {
    if es == [] then []
    else
      var front, last := es[..|es| - 1], es[|es| - 1];
      var ends := Run(Initial(), batchSize, front).batcher.active.Some? && OpenAs(front) != Opening;
      Outcomes(batchSize, front) + if last.FlushSettles? && ends then [last.outcome] else []
  }

  /** The batch of this flush is taken: the run was opened, and neither this append nor an earlier one was refused. */
  predicate Delivers(open: Opening, outcomes: seq<AppendOutcome>, i: nat)
    requires i < |outcomes|
  {
    open == Opened && outcomes[i] == Appended && AuthError !in outcomes[..i]
  }

  /** What was recorded, opened, enqueued and dropped is what the events say. */
  ghost predicate Observed(s: State, batchSize: int, es: seq<Event>) {
    && s.history.calls == Attempts(es) && (s.ended <==> RunEnds in es) && s.open == OpenAs(es)
    && s.history.dropped == Tasked(batchSize, es, false) && InBatcher(s.batcher) == Tasked(batchSize, es, true)
  }

  /** So is which flushes delivered. */
  ghost predicate Judged(settled: seq<B.Settled<Entry>>, disabled: bool, open: Opening, outcomes: seq<AppendOutcome>) {
    && (disabled <==> open == Opened && AuthError in outcomes)
    && (open == Opening ==> outcomes == [])
    && |settled| == |outcomes|
    && forall i :: 0 <= i < |outcomes| ==> (settled[i].delivered <==> Delivers(open, outcomes, i))
  }

  /** The functions above, one event further. */
  lemma OneMoreEvent(batchSize: int, es: seq<Event>, e: Event)
    ensures var s, all := Run(Initial(), batchSize, es), es + [e];
            var settles := e.FlushSettles? && s.batcher.active.Some? && OpenAs(es) != Opening;
            && Attempts(all) == Attempts(es) + (if e.TestEnds? && RunEnds !in es then [e.call] else [])
            && OpenAs(all) == (if OpenAs(es) == Opening && e.OpenSettles? then (if e.ok then Opened else OpenFailed)
                               else OpenAs(es))
            && (forall ok :: Tasked(batchSize, all, ok) == Tasked(batchSize, es, ok) + TaskEnds(s, e, ok))
            && Outcomes(batchSize, all) == Outcomes(batchSize, es) + (if settles then [e.outcome] else [])
  {
    hide Run, Step;
    assert (es + [e])[..|es|] == es && (es + [e])[|es|] == e;
  }

  /** The entry whose task ends this way in this step. */
  function TaskEnds(s: State, e: Event, ok: bool): seq<Entry> {
    if e.EnqueueSettles? && e.task < |s.enqueueing| && e.ok == ok then [s.enqueueing[e.task]] else []
  }

  /** What the batcher sees of an event. */
  function Seen(s: State, e: Event): Option<B.Event<Entry>> {
    match e
    case EnqueueSettles(i, ok) => if i < |s.enqueueing| && ok then Some(B.Enqueue(s.enqueueing[i])) else None
    case TimerFires => Some(B.TimerFires)
    case FlushStarts => Some(B.FlushStarts)
    case FlushSettles(outcome) =>
      if s.open == Opening then None
      else Some(B.FlushSettles(!s.streamingDisabled && s.open == Opened && outcome == Appended))
    case DrainStarts => if s.ended && !s.drainCalled then Some(B.DrainCalled) else None
    case _ => None
  }

  lemma BatcherSees(s: State, batchSize: int, e: Event)
    requires s.buffer.Valid()
    ensures Step(s, batchSize, e).batcher ==
            if Seen(s, e).None? then s.batcher else B.Step(s.batcher, batchSize, Seen(s, e).value)
  {
    hide Record, Drained, Buffer.Valid;
  }

  /** What a step adds to all that was enqueued, end to end. */
  lemma StepEnqueues(s: State, batchSize: int, e: Event)
    requires Valid(s, batchSize)
    ensures InBatcher(Step(s, batchSize, e).batcher) == InBatcher(s.batcher) + TaskEnds(s, e, true)
  {
    ValidParts(s, batchSize);
    BatcherSees(s, batchSize, e);
    hide Valid, Step, B.Step, B.Valid, InBatcher, Buffer.Valid;
    assert InBatcher(s.batcher) + [] == InBatcher(s.batcher);
    if Seen(s, e).Some? {
      BatcherAdds(s.batcher, batchSize, Seen(s, e).value);
    }
  }

  lemma BatcherAdds(b: B.State<Entry>, batchSize: int, e: B.Event<Entry>)
    requires B.Valid(b, batchSize)
    ensures InBatcher(B.Step(b, batchSize, e)) == InBatcher(b) + if e.Enqueue? then [e.item] else []
  {
    hide B.Step, B.Batches, B.Valid, B.Delivered;
    B.StepKeeps(b, batchSize, e);
  }

  lemma StepObserves(s: State, batchSize: int, e: Event)
    requires s.buffer.Valid()
    ensures var t := Step(s, batchSize, e);
            && t.history.calls == s.history.calls + (if e.TestEnds? && !s.ended then [e.call] else [])
            && (t.ended <==> s.ended || e.RunEnds?)
            && t.open == (if s.open == Opening && e.OpenSettles? then (if e.ok then Opened else OpenFailed) else s.open)
            && t.history.dropped == s.history.dropped + TaskEnds(s, e, false)
  {
    hide Record, Drained, Buffer.Valid, B.Step;
  }

  lemma StepObserved(batchSize: int, es: seq<Event>, e: Event)
    requires Valid(Run(Initial(), batchSize, es), batchSize)
    requires Observed(Run(Initial(), batchSize, es), batchSize, es)
    ensures Observed(Step(Run(Initial(), batchSize, es), batchSize, e), batchSize, es + [e])
  {
    var s := Run(Initial(), batchSize, es);
    OneMoreEvent(batchSize, es, e);
    ValidParts(s, batchSize);
    StepObserves(s, batchSize, e);
    StepEnqueues(s, batchSize, e);
    hide Run, Step, Valid, TaskEnds, Tasked, Attempts, OpenAs, Buffer.Valid, B.Valid, InBatcher;
  }

  /** Only the end of a flush settles a batch or disables streaming. */
  lemma StepSettles(s: State, batchSize: int, e: Event)
    requires s.buffer.Valid()
    ensures var t := Step(s, batchSize, e);
            if e.FlushSettles? && s.batcher.active.Some? && s.open != Opening then
              var sent := s.open == Opened && !s.streamingDisabled;
              && t.batcher.settled == s.batcher.settled + [
                   B.Settled(s.batcher.active.value, sent && e.outcome == Appended)]
              && (t.streamingDisabled <==> s.streamingDisabled || (sent && e.outcome == AuthError))
            else
              t.batcher.settled == s.batcher.settled && t.streamingDisabled == s.streamingDisabled
  {
    hide Record, Drained, Buffer.Valid;
  }

  lemma JudgedMore(settled: seq<B.Settled<Entry>>, disabled: bool, open: Opening, outcomes: seq<AppendOutcome>,
                   batch: seq<Entry>, outcome: AppendOutcome)
    requires Judged(settled, disabled, open, outcomes) && open != Opening
    ensures var sent := open == Opened && !disabled;
            Judged(settled + [B.Settled(batch, sent && outcome == Appended)],
                   disabled || (sent && outcome == AuthError), open, outcomes + [outcome])
  {
    var after := outcomes + [outcome];
    forall i | 0 <= i < |after| ensures after[..i] == outcomes[..i] && (i < |outcomes| ==> after[i] == outcomes[i]) {
    }
    assert outcomes[..|outcomes|] == outcomes;
  }

  /** The open settles before the first flush does. */
  lemma JudgedOpened(settled: seq<B.Settled<Entry>>, disabled: bool, before: Opening, after: Opening,
                     outcomes: seq<AppendOutcome>)
    requires Judged(settled, disabled, before, outcomes) && (before == Opening || after == before)
    ensures Judged(settled, disabled, after, outcomes)
  {
  }

  lemma StepJudged(batchSize: int, es: seq<Event>, e: Event)
    requires var s := Run(Initial(), batchSize, es);
             s.open == OpenAs(es) && Judged(s.batcher.settled, s.streamingDisabled, s.open, Outcomes(batchSize, es))
    ensures var t := Step(Run(Initial(), batchSize, es), batchSize, e);
            Judged(t.batcher.settled, t.streamingDisabled, OpenAs(es + [e]), Outcomes(batchSize, es + [e]))
  {
    var s := Run(Initial(), batchSize, es);
    OneMoreEvent(batchSize, es, e);
    StepSettles(s, batchSize, e);
    hide Run, Step, Outcomes, OpenAs, Attempts, Tasked, TaskEnds, Judged, Buffer.Valid;
    var outcomes := Outcomes(batchSize, es);
    if e.FlushSettles? && s.batcher.active.Some? && s.open != Opening {
      JudgedMore(s.batcher.settled, s.streamingDisabled, s.open, outcomes, s.batcher.active.value, e.outcome);
    } else {
      JudgedOpened(s.batcher.settled, s.streamingDisabled, s.open, OpenAs(es + [e]), outcomes);
      assert outcomes + [] == outcomes;
    }
  }

  lemma {:induction false} RunTraced(batchSize: int, es: seq<Event>)
    ensures Valid(Run(Initial(), batchSize, es), batchSize)
    ensures Observed(Run(Initial(), batchSize, es), batchSize, es)
    ensures var s := Run(Initial(), batchSize, es);
            Judged(s.batcher.settled, s.streamingDisabled, s.open, Outcomes(batchSize, es))
    decreases |es|
  {
    InitialValid(batchSize);
    RunKeeps(Initial(), batchSize, es);
    if es == [] {
      assert InBatcher(B.Empty()) == [];
    } else {
      var front, last := es[..|es| - 1], es[|es| - 1];
      assert es == front + [last];
      hide Step, Observed, Judged, Valid;
      RunTraced(batchSize, front);
      StepObserved(batchSize, front, last);
      StepJudged(batchSize, front, last);
      RunSnoc(Initial(), batchSize, front, last);
    }
  }

  /** After the first AuthError, or if the run never opened, nothing more is counted as streamed. */
  lemma {:induction false} StreamingStays(s: State, batchSize: int, es: seq<Event>)
    requires s.buffer.Valid() && (s.streamingDisabled || s.open == OpenFailed)
    ensures var t := Run(s, batchSize, es);
            t.streamed == s.streamed && (t.streamingDisabled || t.open == OpenFailed)
    decreases |es|
  {
    if es != [] {
      StepStreams(s, batchSize, es[0]);
      hide Step;
      StreamingStays(Step(s, batchSize, es[0]), batchSize, es[1..]);
    }
  }

  lemma StepStreams(s: State, batchSize: int, e: Event)
    requires s.buffer.Valid() && (s.streamingDisabled || s.open == OpenFailed)
    ensures var t := Step(s, batchSize, e);
            t.streamed == s.streamed && (t.streamingDisabled || t.open == OpenFailed)
  {
    hide B.Step, Record, Drained, Buffer.Valid;
  }

  /** What was recorded, opened, enqueued and dropped, from the events alone. */
  lemma PipelineFollowsEvents(batchSize: int, es: seq<Event>)
    ensures var s := Run(Initial(), batchSize, es);
            && s.history.calls == Attempts(es) && (s.ended <==> RunEnds in es) && s.open == OpenAs(es)
            && InBatcher(s.batcher) == Tasked(batchSize, es, true) && s.history.dropped == Tasked(batchSize, es, false)
  {
    hide Run, Attempts, OpenAs, Tasked, Outcomes, InBatcher, Valid, Judged;
    RunTraced(batchSize, es);
  }

  /**
   * The counters, from the outcomes of the flushes: a settled batch is counted as streamed exactly if the run
   * was opened and neither its append nor an earlier one was refused.
   */
  lemma CountersExact(batchSize: int, es: seq<Event>)
    ensures var s, outcomes := Run(Initial(), batchSize, es), Outcomes(batchSize, es);
            && s.streamed == Taken(s.batcher.settled, true)
            && s.streamFailed == |Tasked(batchSize, es, false)| + Taken(s.batcher.settled, false)
            && |s.batcher.settled| == |outcomes|
            && forall i :: 0 <= i < |outcomes| ==>
                 (s.batcher.settled[i].delivered <==>
                    OpenAs(es) == Opened && outcomes[i] == Appended && AuthError !in outcomes[..i])
  {
    hide Run, Attempts, OpenAs, Tasked, Outcomes, InBatcher, Taken, Conserved, Accumulated, Awaited;
    hide B.Valid, Buffer.Valid;
    RunTraced(batchSize, es);
  }

  lemma FlushCounts(s: State, batchSize: int, outcome: AppendOutcome)
    requires s.buffer.Valid() && s.batcher.active.Some? && s.open != Opening
    ensures var t := Step(s, batchSize, FlushSettles(outcome));
            var taken := s.open == Opened && !s.streamingDisabled && outcome == Appended;
            && t.streamed == s.streamed + (if taken then |s.batcher.active.value| else 0)
            && t.streamFailed == s.streamFailed + (if taken then 0 else |s.batcher.active.value|)
  {
    hide B.Step, Buffer.Valid;
  }

  /** What the end of any flush adds to the counters. */
  lemma NextFlush(batchSize: int, es: seq<Event>, outcome: AppendOutcome)
    ensures var u, t := Run(Initial(), batchSize, es), Run(Initial(), batchSize, es + [FlushSettles(outcome)]);
            u.batcher.active.Some? && u.open != Opening ==>
              var taken := u.open == Opened && AuthError !in Outcomes(batchSize, es) && outcome == Appended;
              && t.streamed == u.streamed + (if taken then |u.batcher.active.value| else 0)
              && t.streamFailed == u.streamFailed + (if taken then 0 else |u.batcher.active.value|)
  {
    RunTraced(batchSize, es);
    RunSnoc(Initial(), batchSize, es, FlushSettles(outcome));
    var u := Run(Initial(), batchSize, es);
    hide Run, Step, Attempts, OpenAs, Tasked, Outcomes, InBatcher, Valid, Delivers, Buffer.Valid;
    if u.batcher.active.Some? && u.open != Opening {
      FlushCounts(u, batchSize, outcome);
    }
  }

  /** An AuthError ends the streaming: whatever comes after it, nothing more is counted as streamed. */
  lemma AuthErrorIsFinal(batchSize: int, es: seq<Event>, fs: seq<Event>)
    ensures var u := Run(Initial(), batchSize, es);
            u.batcher.active.Some? && u.open != Opening ==>
              Run(u, batchSize, [FlushSettles(AuthError)] + fs).streamed == u.streamed
  {
    var u := Run(Initial(), batchSize, es);
    if u.batcher.active.Some? && u.open != Opening {
      var v := Step(u, batchSize, FlushSettles(AuthError));
      assert v.streamed == u.streamed && (v.streamingDisabled || v.open == OpenFailed);
      StreamingStays(v, batchSize, fs);
      hide Step;
      assert ([FlushSettles(AuthError)] + fs)[1..] == fs;
    }
  }

  // ----- A clean end can always be reached -----

  lemma RunCons(s: State, batchSize: int, e: Event, fs: seq<Event>)
    requires s.buffer.Valid()
    ensures Run(s, batchSize, [e] + fs) == Run(Step(s, batchSize, e), batchSize, fs)
  {
    hide Step, Buffer.Valid;
    assert ([e] + fs)[1..] == fs;
  }

  lemma TaskStep(s: State, batchSize: int)
    requires Valid(s, batchSize) && s.enqueueing != []
    ensures var t := Step(s, batchSize, EnqueueSettles(0, true));
            && Valid(t, batchSize) && s.buffer.Valid() && t.enqueueing == s.enqueueing[1..]
            && t.open == s.open && t.ended == s.ended && t.drainCalled == s.drainCalled
  {
    hide Valid, Step, B.Step, Buffer.Valid;
    var t := Following(s, batchSize, EnqueueSettles(0, true));
    assert s.enqueueing[..0] + s.enqueueing[1..] == s.enqueueing[1..];
  }

  /** The waiting tasks end well, one after another. */
  lemma {:induction false} TasksEnd(s: State, batchSize: int) returns (fs: seq<Event>)
    requires Valid(s, batchSize)
    ensures s.buffer.Valid() && Valid(Run(s, batchSize, fs), batchSize)
    ensures var t := Run(s, batchSize, fs);
            t.enqueueing == [] && t.open == s.open && t.ended == s.ended && t.drainCalled == s.drainCalled
    decreases |s.enqueueing|
  {
    ValidParts(s, batchSize);
    hide Valid, Step, Buffer.Valid;
    fs := [];
    if s.enqueueing != [] {
      TaskStep(s, batchSize);
      var rest := TasksEnd(Step(s, batchSize, EnqueueSettles(0, true)), batchSize);
      RunCons(s, batchSize, EnqueueSettles(0, true), rest);
      hide Run;
      fs := [EnqueueSettles(0, true)] + rest;
    }
  }

  /** How much the flushes still have to do. */
  function Work(s: State): nat {
    2 * |s.batcher.chained| + if s.batcher.active.Some? then 1 else 0
  }

  /** Only a drain decides what is awaited, and only a flush's own events move the batches along. */
  lemma FlushMoves(s: State, batchSize: int, e: Event)
    requires s.buffer.Valid() && s.open != Opening
    requires if s.batcher.active.Some? then e.FlushSettles? else e.FlushStarts?
    ensures var t := Step(s, batchSize, e);
            && t.open == s.open && t.history.awaited == s.history.awaited
            && (Work(s) > 0 ==> Work(t) < Work(s))
  {
    hide Record, Drained, Buffer.Valid;
  }

  lemma FlushStep(s: State, batchSize: int, outcome: AppendOutcome) returns (e: Event)
    requires Valid(s, batchSize) && s.open != Opening && Work(s) > 0
    ensures s.buffer.Valid()
    ensures var t := Step(s, batchSize, e);
            && Valid(t, batchSize) && Work(t) < Work(s)
            && t.open == s.open && t.history.awaited == s.history.awaited
  {
    e := if s.batcher.active.Some? then FlushSettles(outcome) else FlushStarts;
    StepKeeps(s, batchSize, e);
    ValidParts(s, batchSize);
    FlushMoves(s, batchSize, e);
    hide Valid, Step, Work, Buffer.Valid;
  }

  /** The flushes run one after another, with any outcome. */
  lemma {:induction false} FlushesEnd(s: State, batchSize: int, outcome: AppendOutcome) returns (fs: seq<Event>)
    requires Valid(s, batchSize) && s.open != Opening
    ensures s.buffer.Valid() && Valid(Run(s, batchSize, fs), batchSize)
    ensures var t := Run(s, batchSize, fs); Work(t) == 0 && t.history.awaited == s.history.awaited
    decreases Work(s)
  {
    ValidParts(s, batchSize);
    hide Valid, Step, Work, Buffer.Valid;
    fs := [];
    if Work(s) > 0 {
      var e := FlushStep(s, batchSize, outcome);
      var rest := FlushesEnd(Step(s, batchSize, e), batchSize, outcome);
      RunCons(s, batchSize, e, rest);
      hide Run;
      fs := [e] + rest;
    }
  }

  lemma EndStep(s: State, batchSize: int)
    requires Valid(s, batchSize)
    ensures s.buffer.Valid()
    ensures var t := Step(s, batchSize, RunEnds);
            Valid(t, batchSize) && t.ended && t.open == s.open && t.drainCalled == s.drainCalled
  {
    StepKeeps(s, batchSize, RunEnds);
    ValidParts(s, batchSize);
    hide Valid, Drained, Buffer.Valid;
  }

  lemma DrainStep(s: State, batchSize: int)
    requires Valid(s, batchSize) && s.ended && !s.drainCalled && s.enqueueing == []
    ensures s.buffer.Valid()
    ensures var t := Step(s, batchSize, DrainStarts);
            Valid(t, batchSize) && t.open == s.open && t.history.awaited.Some?
  {
    hide Valid, Step, B.Step, B.Batches, Buffer.Valid;
    var t := Following(s, batchSize, DrainStarts);
  }

  lemma AllSettled(s: State, batchSize: int)
    requires Valid(s, batchSize) && s.history.awaited.Some? && Work(s) == 0
    ensures Finished(s)
  {
    hide B.Valid, Conserved, Counted, Accumulated, Buffer.Valid;
    assert B.Batches(s.batcher) == B.Delivered(s.batcher.settled);
  }

  /**
   * From every reachable state, once the open has settled, the end of the suite can be carried through to a
   * clean end, whatever the outcome of the appends that are left.
   */
  lemma CleanEndReachable(batchSize: int, es: seq<Event>, outcome: AppendOutcome) returns (fs: seq<Event>)
    requires Run(Initial(), batchSize, es).open != Opening && !Run(Initial(), batchSize, es).drainCalled
    ensures Finished(Run(Initial(), batchSize, es + fs))
  {
    InitialValid(batchSize);
    RunKeeps(Initial(), batchSize, es);
    var s := Run(Initial(), batchSize, es);
    hide Run, Step, Valid, Finished, Work, Buffer.Valid;
    EndStep(s, batchSize);
    var ended := Step(s, batchSize, RunEnds);
    var tasks := TasksEnd(ended, batchSize);
    var ready := Run(ended, batchSize, tasks);
    DrainStep(ready, batchSize);
    var draining := Step(ready, batchSize, DrainStarts);
    var flushes := FlushesEnd(draining, batchSize, outcome);
    AllSettled(Run(draining, batchSize, flushes), batchSize);
    fs := [RunEnds] + (tasks + ([DrainStarts] + flushes));
    RunConcat(Initial(), batchSize, es, fs);
    RunCons(s, batchSize, RunEnds, tasks + ([DrainStarts] + flushes));
    RunConcat(ended, batchSize, tasks, [DrainStarts] + flushes);
    RunCons(ready, batchSize, DrainStarts, flushes);
  }

  // ----- The class -----

  /** `WrightfulReporter` as far as streaming goes; tasks and history are kept as ghosts. */
  class WrightfulReporter {
    const accumulator: TestAccumulator
    const batcher: B.Batcher<Entry>
    var open: Opening
    var streamed: nat
    var streamFailed: nat
    var streamingDisabled: bool
    ghost var enqueueing: seq<Entry>
    ghost var ended: bool
    ghost var drainCalled: bool
    ghost var history: History

    ghost function Abstract(): State
      reads this, accumulator, batcher
    {
      State(accumulator.State(), enqueueing, batcher.Abstract(), open, streamed, streamFailed, streamingDisabled,
            ended, drainCalled, history)
    }

    ghost predicate Inv()
      reads this, accumulator, batcher
    {
      Valid(Abstract(), batcher.batchSize)
    }

    /** The batch size is clamped to what the dashboard accepts. */
    constructor (requestedBatchSize: int)
      ensures Inv() && Abstract() == Initial() && 1 <= batcher.batchSize <= 5000
      ensures fresh(accumulator) && fresh(batcher)
    {
      accumulator := new TestAccumulator();
      batcher := new B.Batcher(Max(1, Min(requestedBatchSize, 5000)));
      open, streamed, streamFailed, streamingDisabled := Opening, 0, 0, false;
      enqueueing, ended, drainCalled, history := [], false, false, History([], [], [], None);
      new;
      InitialValid(batcher.batchSize);
    }

    method OnTestEnd(test: TestCase, result: TestResult)
      requires Inv() && !ended
      modifies this, accumulator
      ensures Inv() && Abstract() == Step(old(Abstract()), batcher.batchSize, TestEnds(Call(test, result)))
    {
      hide Valid, Record, Buffer.Valid, B.Valid, Step;
      ghost var before := Abstract();
      ghost var after := Following(before, batcher.batchSize, TestEnds(Call(test, result)));
      var done := accumulator.RecordAttempt(test, result);
      var entries := if done.Some? then [done.value] else [];
      history := history.(calls := history.calls + [Call(test, result)], surfaced := history.surfaced + entries);
      enqueueing := enqueueing + entries;
      assert Abstract() == after;
    }

    /** The background task of one finished test: it enqueues the payload, or fails and is counted as dropped. */
    method EnqueueDone(entry: Entry, ghost task: nat, ok: bool)
      requires Inv() && task < |enqueueing| && enqueueing[task] == entry
      modifies this, batcher
      ensures Inv() && Abstract() == Step(old(Abstract()), batcher.batchSize, EnqueueSettles(task, ok))
    {
      hide Valid, B.Step, Buffer.Valid, B.Valid, Step;
      ghost var before := Abstract();
      ghost var after := Following(before, batcher.batchSize, EnqueueSettles(task, ok));
      enqueueing := enqueueing[..task] + enqueueing[task + 1..];
      if ok {
        batcher.EnqueueItem(entry);
      } else {
        streamFailed := streamFailed + 1;
        history := history.(dropped := history.dropped + [entry]);
      }
      assert Abstract() == after;
    }

    /** The flush callback on the active batch, and `onFailure` if the append throws. */
    method Flush(batch: seq<Entry>, outcome: AppendOutcome)
      requires Inv() && batcher.active == Some(batch) && open != Opening
      modifies this, batcher
      ensures Inv() && Abstract() == Step(old(Abstract()), batcher.batchSize, FlushSettles(outcome))
    {
      hide Valid, B.Step, Buffer.Valid, B.Valid, Step;
      ghost var before := Abstract();
      ghost var after := Following(before, batcher.batchSize, FlushSettles(outcome));
      if streamingDisabled || open != Opened {
        streamFailed := streamFailed + |batch|;
        batcher.SettleFlush(false);
      } else {
        match outcome {
          case Appended =>
            streamed := streamed + |batch|;
            batcher.SettleFlush(true);
          case AuthError =>
            streamingDisabled := true;
            streamFailed := streamFailed + |batch|;
            batcher.SettleFlush(false);
          case OtherError =>
            streamFailed := streamFailed + |batch|;
            batcher.SettleFlush(false);
        }
      }
      assert Abstract() == after;
    }

    /** The first part of `onEnd`: whatever is still buffered is enqueued as it stands. */
    method OnEnd()
      requires Inv() && !ended
      modifies this, accumulator
      ensures Inv() && Abstract() == Step(old(Abstract()), batcher.batchSize, RunEnds)
    {
      hide Valid, Drained, Buffer.Valid, B.Valid, Step;
      ghost var before := Abstract();
      ghost var after := Following(before, batcher.batchSize, RunEnds);
      var entries := accumulator.DrainPending();
      history := history.(surfaced := history.surfaced + entries);
      enqueueing := enqueueing + entries;
      ended := true;
      assert Abstract() == after;
    }

    /** `onEnd` after its wait for the enqueue tasks, whether they settled or the budget ran out. */
    method StartDrain()
      requires Inv() && ended && !drainCalled
      modifies this, batcher
      ensures Inv() && Abstract() == Step(old(Abstract()), batcher.batchSize, DrainStarts)
    {
      hide Valid, B.Step, Buffer.Valid, B.Valid, B.Batches, Step;
      ghost var before := Abstract();
      ghost var after := Following(before, batcher.batchSize, DrainStarts);
      batcher.Drain();
      drainCalled := true;
      history := history.(awaited := if enqueueing == [] then Some(|B.Batches(batcher.Abstract())|) else None);
      assert Abstract() == after;
    }
  }
}
