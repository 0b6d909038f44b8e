/** Buffering attempts until a test is done (packages/reporter/src/accumulator.ts). */
module Accumulator {
  import opened Prelude

  datatype Status = Passed | Failed | TimedOut | Skipped | Interrupted

  datatype TestCase = TestCase(id: string, retries: int)

  datatype TestResult = TestResult(status: Status, retry: int)

  datatype PendingTest = PendingTest(test: TestCase, results: seq<TestResult>)

  /** One `onTestEnd`: the test and the attempt that ended. */
  datatype Call = Call(test: TestCase, result: TestResult)

  predicate IsTestDone(test: TestCase, result: TestResult) {
    result.status.Passed? || result.status.Skipped? || result.status.Interrupted? || result.retry >= test.retries
  }

  /** A JavaScript Map: its entries and the order in which its keys were inserted. */
  datatype Buffer = Buffer(pending: map<string, PendingTest>, order: seq<string>) {
    ghost predicate Valid() {
      && Distinct(order)
      && (forall k :: k in pending <==> k in order)
      && (forall k :: k in pending ==> pending[k].test.id == k && pending[k].results != [])
    }
  }

  predicate Distinct(order: seq<string>) {
    forall i, j :: 0 <= i < j < |order| ==> order[i] != order[j]
  }

  function Without(order: seq<string>, key: string): (r: seq<string>)
    ensures forall k :: k in r <==> k in order && k != key
    ensures Distinct(order) ==> Distinct(r)
  {
    if order == [] then []
    else
      var rest := Without(order[1..], key);
      assert Distinct(order) ==> Distinct(order[1..]);
      assert Distinct(order) ==> order[0] !in rest;
      DistinctCons(order[0], rest);
      if order[0] == key then rest else [order[0]] + rest
  }

  lemma DistinctCons(x: string, rest: seq<string>)
    ensures Distinct(rest) && x !in rest ==> Distinct([x] + rest)
  {
  }

  function Record(b: Buffer, call: Call): (r: (Buffer, Option<PendingTest>))
    requires b.Valid()
    ensures r.0.Valid()
    ensures r.1.Some? ==> r.1.value.test.id == call.test.id
  {
    var key := call.test.id;
    var entry := if key in b.pending then b.pending[key].(results := b.pending[key].results + [call.result])
                 else PendingTest(call.test, [call.result]);
    if IsTestDone(call.test, call.result) then
      (Buffer(b.pending - {key}, Without(b.order, key)), Some(entry))
    else
      (Buffer(b.pending[key := entry], if key in b.pending then b.order else b.order + [key]), None)
  }

  function Drained(b: Buffer): (r: seq<PendingTest>)
    requires b.Valid()
    ensures |r| == |b.order| && forall i :: 0 <= i < |r| ==> r[i] == b.pending[b.order[i]]
  {
    seq(|b.order|, i requires 0 <= i < |b.order| => b.pending[b.order[i]])
  }

  class TestAccumulator {
    var pending: map<string, PendingTest>
    var order: seq<string>

    function State(): Buffer
      reads this
    {
      Buffer(pending, order)
    }

    constructor ()
      ensures State() == Buffer(map[], []) && State().Valid()
    {
      pending, order := map[], [];
    }

    method RecordAttempt(test: TestCase, result: TestResult) returns (done: Option<PendingTest>)
      requires State().Valid()
      modifies this
      ensures State().Valid() && (State(), done) == Record(old(State()), Call(test, result))
    {
      hide Buffer.Valid, Without, IsTestDone;
      var key := test.id;
      var known := key in pending;
      var entry := if known then pending[key] else PendingTest(test, []);
      entry := entry.(results := entry.results + [result]);
      assert [] + [result] == [result];
      ghost var before := State();
      ghost var after := Record(before, Call(test, result));
      pending := pending[key := entry];
      if !known { order := order + [key]; }
      if !IsTestDone(test, result) { return None; }
      assert pending - {key} == before.pending - {key};
      pending := pending - {key};
      if !known { NewKey(before, key); }
      order := Without(order, key);
      return Some(entry);
    }

    method DrainPending() returns (entries: seq<PendingTest>)
      requires State().Valid()
      modifies this
      ensures State() == Buffer(map[], []) && entries == Drained(old(State()))
    {
      entries := Drained(State());
      pending, order := map[], [];
    }
  }

  lemma NewKey(b: Buffer, key: string)
    requires b.Valid() && key !in b.pending
    ensures Without(b.order + [key], key) == Without(b.order, key)
  {
    WithoutNew(b.order, key);
  }

  lemma {:induction false} WithoutNew(order: seq<string>, key: string)
    requires key !in order
    ensures Without(order + [key], key) == Without(order, key)
  {
    if order != [] {
      assert (order + [key])[0] == order[0] && (order + [key])[1..] == order[1..] + [key];
      WithoutNew(order[1..], key);
    } else {
      assert order + [key] == [key] && [key][1..] == [];
    }
  }

  // ----- Whole runs -----

  datatype Run = Run(buffer: Buffer, emitted: seq<PendingTest>)

  function RunAll(calls: seq<Call>): (r: Run)
    ensures r.buffer.Valid()
  {
    if calls == [] then Run(Buffer(map[], []), [])
    else
      var before := RunAll(calls[..|calls| - 1]);
      var (buffer, done) := Record(before.buffer, calls[|calls| - 1]);
      Run(buffer, before.emitted + if done.Some? then [done.value] else [])
  }

  /** The attempts recorded for one test, in order. */
  function CallsOf(id: string, calls: seq<Call>): seq<Call> {
    if calls == [] then []
    else
      var last := calls[|calls| - 1];
      CallsOf(id, calls[..|calls| - 1]) + if last.test.id == id then [last] else []
  }

  function EntriesOf(id: string, entries: seq<PendingTest>): seq<seq<TestResult>> {
    if entries == [] then []
    else
      var last := entries[|entries| - 1];
      EntriesOf(id, entries[..|entries| - 1]) + if last.test.id == id then [last.results] else []
  }

  /** Attempts cut after every one that is done: the finished stretches, and what is left over. */
  function Stretches(calls: seq<Call>): (seq<seq<TestResult>>, seq<TestResult>) {
    if calls == [] then ([], [])
    else
      var (finished, rest) := Stretches(calls[..|calls| - 1]);
      var last := calls[|calls| - 1];
      if IsTestDone(last.test, last.result) then (finished + [rest + [last.result]], [])
      else (finished, rest + [last.result])
  }

  function PendingOf(id: string, b: Buffer): seq<TestResult> {
    if id in b.pending then b.pending[id].results else []
  }

  /**
   * Each test's attempts come out in order, cut exactly after its done attempts: the finished stretches
   * as emitted entries, the rest still pending.
   */
  lemma {:induction false} EntriesAreStretches(id: string, calls: seq<Call>)
    ensures var run := RunAll(calls);
            (EntriesOf(id, run.emitted), PendingOf(id, run.buffer)) == Stretches(CallsOf(id, calls))
  {
    hide Record, PendingOf, EntriesOf, Stretches, IsTestDone;
    if calls == [] {
      NothingRecorded(id);
    } else {
      var front, last := calls[..|calls| - 1], calls[|calls| - 1];
      EntriesAreStretches(id, front);
      var before := RunAll(front);
      var done := Record(before.buffer, last).1;
      RecordOne(id, before.buffer, last);
      if done.Some? {
        EntriesSnoc(id, before.emitted, done.value);
      } else {
        assert before.emitted + [] == before.emitted;
      }
      if last.test.id == id {
        StretchesSnoc(CallsOf(id, front), last);
      } else {
        assert CallsOf(id, front) + [] == CallsOf(id, front);
      }
    }
  }

  lemma NothingRecorded(id: string)
    ensures EntriesOf(id, []) == [] && PendingOf(id, Buffer(map[], [])) == [] && Stretches([]) == ([], [])
  {
  }

  /** What one record does to the pending attempts of a test. */
  lemma RecordOne(id: string, b: Buffer, call: Call)
    requires b.Valid()
    ensures var (after, done) := Record(b, call);
            var grown := PendingOf(id, b) + [call.result];
            if call.test.id != id then PendingOf(id, after) == PendingOf(id, b)
            else if IsTestDone(call.test, call.result) then
              done.Some? && done.value.results == grown && PendingOf(id, after) == []
            else done.None? && PendingOf(id, after) == grown
    ensures Record(b, call).1.Some? <==> IsTestDone(call.test, call.result)
  {
    hide IsTestDone, Buffer.Valid, Without;
    assert [] + [call.result] == [call.result];
  }

  lemma EntriesSnoc(id: string, entries: seq<PendingTest>, last: PendingTest)
    ensures EntriesOf(id, entries + [last]) ==
            if last.test.id == id then EntriesOf(id, entries) + [last.results] else EntriesOf(id, entries)
  {
    assert (entries + [last])[..|entries|] == entries;
    assert EntriesOf(id, entries) + [] == EntriesOf(id, entries);
  }

  lemma StretchesSnoc(calls: seq<Call>, last: Call)
    ensures var (finished, rest) := Stretches(calls);
            Stretches(calls + [last]) ==
            if IsTestDone(last.test, last.result) then (finished + [rest + [last.result]], [])
            else (finished, rest + [last.result])
  {
    assert (calls + [last])[..|calls|] == calls;
  }

  function Results(calls: seq<Call>): seq<TestResult> {
    seq(|calls|, i requires 0 <= i < |calls| => calls[i].result)
  }

  /** Stretches lose nothing; what is left over holds no done attempt. */
  lemma {:induction false} StretchesComplete(calls: seq<Call>)
    ensures var (finished, rest) := Stretches(calls);
            && Flatten(finished) + rest == Results(calls)
            && |rest| <= |calls|
            && (forall i :: |calls| - |rest| <= i < |calls| ==> !IsTestDone(calls[i].test, calls[i].result))
  {
    if calls != [] {
      var front, last := calls[..|calls| - 1], calls[|calls| - 1];
      StretchesComplete(front);
      var (finished, rest) := Stretches(front);
      assert Results(calls) == Results(front) + [last.result];
      if IsTestDone(last.test, last.result) {
        FlattenSnoc(finished, rest + [last.result]);
      }
    }
  }

  /**
   * After any records and a final drain, the emitted and drained results of a test are exactly the
   * attempts recorded for it, in order, and nothing drained ends with a done attempt.
   */
  lemma NothingLost(id: string, calls: seq<Call>)
    ensures var run, mine := RunAll(calls), CallsOf(id, calls);
            var left := PendingOf(id, run.buffer);
            && Flatten(EntriesOf(id, run.emitted)) + left == Results(mine)
            && (left != [] ==> left == run.buffer.pending[id].results && run.buffer.pending[id] in Drained(run.buffer))
            && (left != [] ==> !IsTestDone(mine[|mine| - 1].test, mine[|mine| - 1].result))
  {
    EntriesAreStretches(id, calls);
    StretchesComplete(CallsOf(id, calls));
    var b := RunAll(calls).buffer;
    if id in b.pending {
      var i :| 0 <= i < |b.order| && b.order[i] == id;
      assert Drained(b)[i] == b.pending[id];
    }
  }

  /**
   * When a test is surfaced, after any records: exactly if the attempt passed, was skipped or interrupted, or was
   * the last one configured; and then with everything that was pending for it.
   */
  lemma SurfacesExactly(calls: seq<Call>, call: Call)
    ensures var before, after := RunAll(calls), RunAll(calls + [call]);
            var id, status := call.test.id, call.result.status;
            var results := PendingOf(id, before.buffer) + [call.result];
            var known := id in before.buffer.pending;
            if status == Passed || status == Skipped || status == Interrupted
               || call.result.retry >= call.test.retries then
              && id !in after.buffer.pending
              && after.emitted == before.emitted + [
                   PendingTest(if known then before.buffer.pending[id].test else call.test, results)]
            else
              after.emitted == before.emitted && PendingOf(id, after.buffer) == results
  {
    assert (calls + [call])[..|calls|] == calls;
    hide RunAll, Without, Buffer.Valid;
    var before := RunAll(calls);
    assert before.emitted + [] == before.emitted && [] + [call.result] == [call.result];
  }

  lemma {:induction false} StretchOpen(calls: seq<Call>)
    requires forall i :: 0 <= i < |calls| ==> !IsTestDone(calls[i].test, calls[i].result)
    ensures Stretches(calls) == ([], Results(calls))
  {
    if calls != [] {
      StretchOpen(calls[..|calls| - 1]);
      assert Results(calls) == Results(calls[..|calls| - 1]) + [calls[|calls| - 1].result];
    }
  }

  /** Attempts of which only the last may be final are one stretch, open or finished. */
  lemma {:induction false} RetriesStretch(mine: seq<Call>, retries: int)
    requires 0 < |mine| <= retries + 1
    requires forall i :: 0 <= i < |mine| ==> mine[i].test.retries == retries && mine[i].result.retry == i
    requires forall i :: 0 <= i < |mine| - 1 ==> mine[i].result.status == Failed || mine[i].result.status == TimedOut
    ensures var last := mine[|mine| - 1].result;
            if (last.status == Failed || last.status == TimedOut) && last.retry < retries then
              Stretches(mine) == ([], Results(mine))
            else
              Stretches(mine) == ([Results(mine)], [])
  {
    var front, end := mine[..|mine| - 1], mine[|mine| - 1];
    forall i | 0 <= i < |front| ensures !IsTestDone(front[i].test, front[i].result) {
      assert front[i] == mine[i];
    }
    StretchOpen(front);
    assert mine == front + [end];
    StretchesSnoc(front, end);
    assert Results(front) + [end.result] == Results(mine);
    assert end.test.retries == retries && end.result.retry == |mine| - 1;
    assert Stretches(front).0 + [Results(mine)] == [Results(mine)];
    hide Stretches, Results;
  }

  /**
   * A test whose attempts came as Playwright makes them, retries only after a failure and no more than configured,
   * comes out as one entry with all its attempts as soon as one of them is final, and is pending until then.
   */
  lemma OneEntryForRetries(id: string, calls: seq<Call>, retries: int)
    requires CallsOf(id, calls) != []
    requires var mine := CallsOf(id, calls);
             && |mine| <= retries + 1
             && (forall i :: 0 <= i < |mine| ==> mine[i].test.retries == retries && mine[i].result.retry == i)
             && (forall i :: 0 <= i < |mine| - 1 ==>
                   mine[i].result.status == Failed || mine[i].result.status == TimedOut)
    ensures var run, mine := RunAll(calls), CallsOf(id, calls);
            var last := mine[|mine| - 1].result;
            if last.status == Failed || last.status == TimedOut then
              if last.retry < retries then EntriesOf(id, run.emitted) == [] && PendingOf(id, run.buffer) == Results(mine)
              else EntriesOf(id, run.emitted) == [Results(mine)] && PendingOf(id, run.buffer) == []
            else
              EntriesOf(id, run.emitted) == [Results(mine)] && PendingOf(id, run.buffer) == []
  {
    var mine := CallsOf(id, calls);
    EntriesAreStretches(id, calls);
    RetriesStretch(mine, retries);
    hide RunAll, CallsOf, Stretches, EntriesOf, PendingOf, Results;
  }
}
