/**
 * The PUT tasks of any number of overlapping `upload()` calls that share one semaphore
 * (packages/reporter/src/artifact-uploader.ts): each task acquires, makes its PUT, counts it for its call as
 * done or failed, and releases in its `finally`, whichever way the PUT ended.
 */
module PutPool {
  import opened Prelude
  import S = Semaphore

  type Task = S.Task

  datatype Counts = Counts(ok: nat, failed: nat)

  /** A started task waits for the semaphore, holds it while its PUT is in flight, or has ended. */
  datatype State = State(
    sem: S.State,
    calls: map<Task, nat>,       // the started tasks and the `upload()` call of each
    ended: map<Task, bool>,      // how each PUT ended
    results: map<nat, Counts>)   // the counters of each call

  datatype Event =
    | Starts(task: Task, call: nat)
    | PutEnds(task: Task, ok: bool)

  function Initial(limit: nat): State {
    State(S.State(limit, 0, [], {}), map[], map[], map[])
  }

  function ResultOf(s: State, call: nat): Counts {
    if call in s.results then s.results[call] else Counts(0, 0)
  }

  function Counted(counts: Counts, ok: bool): Counts {
    if ok then counts.(ok := counts.ok + 1) else counts.(failed := counts.failed + 1)
  }

  /** A task starts once, and only a PUT in flight ends. */
  function Step(s: State, e: Event): State {
    match e
    case Starts(t, call) =>
      if t in s.calls then s else s.(sem := S.Step(s.sem, S.Acquire(t)), calls := s.calls[t := call])
    case PutEnds(t, ok) =>
      if t !in s.sem.holders || t !in s.calls then s
      else
        s.(sem := S.Step(s.sem, S.Release(t)), ended := s.ended[t := ok],
           results := s.results[s.calls[t] := Counted(ResultOf(s, s.calls[t]), ok)])
  }

  function Run(s: State, es: seq<Event>): State
    decreases |es|
  {
    if es == [] then s else Run(Step(s, es[0]), es[1..])
  }

  /** Every started task is in exactly one place. */
  predicate Placed(s: State, t: Task) {
    && (t in s.calls <==> t in s.sem.waiters || t in s.sem.holders || t in s.ended)
    && !(t in s.sem.waiters && t in s.sem.holders) && !(t in s.sem.waiters && t in s.ended)
    && !(t in s.sem.holders && t in s.ended)
  }

  /** The tasks of a call that ended this way. */
  function EndedAs(s: State, call: nat, ok: bool): set<Task> {
    set t | t in s.ended && t in s.calls && s.calls[t] == call && s.ended[t] == ok
  }

  ghost predicate CountsRight(s: State) {
    forall call :: ResultOf(s, call) == Counts(|EndedAs(s, call, true)|, |EndedAs(s, call, false)|)
  }

  ghost predicate Valid(s: State) {
    S.Valid(s.sem) && (forall t: Task :: Placed(s, t)) && CountsRight(s)
  }

  lemma InitialValid(limit: nat)
    ensures Valid(Initial(limit))
  {
    forall call, ok ensures EndedAs(Initial(limit), call, ok) == {} {}
  }

  lemma PlacedKept(s: State, e: Event, t: Task)
    requires Valid(s)
    ensures Placed(Step(s, e), t)
  {
    hide CountsRight, ResultOf, Counted;
    assert Placed(s, t) && Placed(s, e.task);
    var waiters := s.sem.waiters;
    assert waiters != [] ==> waiters[0] in waiters && waiters == [waiters[0]] + waiters[1..];
    assert waiters != [] ==> waiters[0] !in waiters[1..];
  }

  /** The PUT in flight of this task ends. */
  predicate Effective(s: State, e: Event) {
    e.PutEnds? && e.task in s.sem.holders && e.task in s.calls
  }

  lemma OneMore(before: set<Task>, after: set<Task>, t: Task)
    requires t !in before && forall x :: x in after <==> x in before || x == t
    ensures |after| == |before| + 1
  {
    assert after == before + {t};
  }

  lemma EndedGrows(s: State, e: Event)
    requires Placed(s, e.task) && Effective(s, e)
    ensures |EndedAs(Step(s, e), s.calls[e.task], e.ok)| == |EndedAs(s, s.calls[e.task], e.ok)| + 1
  {
    var v, call := Step(s, e), s.calls[e.task];
    assert v.ended == s.ended[e.task := e.ok] && v.calls == s.calls;
    hide S.Step, ResultOf, Counted, Step;
    OneMore(EndedAs(s, call, e.ok), EndedAs(v, call, e.ok), e.task);
  }

  lemma EndedStays(s: State, e: Event, call: nat, ok: bool)
    requires Placed(s, e.task) && !(Effective(s, e) && s.calls[e.task] == call && e.ok == ok)
    ensures EndedAs(Step(s, e), call, ok) == EndedAs(s, call, ok)
  {
    hide S.Step, ResultOf, Counted;
  }

  lemma CountKept(s: State, e: Event, call: nat)
    requires Placed(s, e.task)
    requires ResultOf(s, call) == Counts(|EndedAs(s, call, true)|, |EndedAs(s, call, false)|)
    ensures var v := Step(s, e); ResultOf(v, call) == Counts(|EndedAs(v, call, true)|, |EndedAs(v, call, false)|)
  {
    hide S.Step, EndedAs, Placed;
    if Effective(s, e) && s.calls[e.task] == call {
      EndedGrows(s, e);
      EndedStays(s, e, call, !e.ok);
    } else {
      EndedStays(s, e, call, true);
      EndedStays(s, e, call, false);
    }
  }

  lemma CountsKept(s: State, e: Event)
    requires Valid(s)
    ensures CountsRight(Step(s, e))
  {
    hide Step, S.Valid, EndedAs, ResultOf;
    assert Placed(s, e.task);
    forall call
      ensures ResultOf(Step(s, e), call)
           == Counts(|EndedAs(Step(s, e), call, true)|, |EndedAs(Step(s, e), call, false)|)
    {
      CountKept(s, e, call);
    }
  }

  lemma StepKeeps(s: State, e: Event)
    requires Valid(s)
    ensures Valid(Step(s, e)) && Step(s, e).sem.limit == s.sem.limit
  {
    CountsKept(s, e);
    S.StepKeeps(s.sem, if e.Starts? then S.Acquire(e.task) else S.Release(e.task));
    hide S.Step, S.Valid, CountsRight;
    forall t: Task ensures Placed(Step(s, e), t) {
      PlacedKept(s, e, t);
    }
  }

  lemma {:induction false} RunKeeps(s: State, es: seq<Event>)
    requires Valid(s)
    ensures Valid(Run(s, es)) && Run(s, es).sem.limit == s.sem.limit
    decreases |es|
  {
    if es != [] {
      StepKeeps(s, es[0]);
      hide Valid, Step;
      RunKeeps(Step(s, es[0]), es[1..]);
    }
  }

  // ----- Every reachable state -----

  predicate AllEnded(s: State) {
    forall t :: t in s.calls ==> t in s.ended
  }

  /** At no time are more PUTs in flight than the limit, across all calls. */
  lemma PutsBounded(limit: nat, es: seq<Event>)
    ensures var s := Run(Initial(limit), es);
            |s.sem.holders| <= limit && s.sem.active == |s.sem.holders|
  {
    InitialValid(limit);
    RunKeeps(Initial(limit), es);
  }

  /** Once every task has ended, however its PUT ended, no slot is held and nobody waits. */
  lemma NoSlotLeaked(limit: nat, es: seq<Event>)
    ensures var s := Run(Initial(limit), es);
            AllEnded(s) ==> s.sem.active == 0 && s.sem.holders == {} && s.sem.waiters == []
  {
    InitialValid(limit);
    RunKeeps(Initial(limit), es);
    hide Run, CountsRight;
    var s := Run(Initial(limit), es);
    assert s.sem.waiters != [] ==> s.sem.waiters[0] in s.sem.waiters;
    if AllEnded(s) {
      forall t ensures t !in s.sem.holders && t !in s.sem.waiters {
        assert Placed(s, t);
      }
    }
  }

  /** With at least one slot, some PUT is in flight until every task has ended: no deadlock. */
  lemma NoDeadlock(limit: nat, es: seq<Event>)
    requires limit >= 1
    ensures var s := Run(Initial(limit), es);
            !AllEnded(s) ==> s.sem.holders != {}
  {
    InitialValid(limit);
    RunKeeps(Initial(limit), es);
    hide Run, CountsRight;
    var s := Run(Initial(limit), es);
    if !AllEnded(s) {
      var t :| t in s.calls && t !in s.ended;
      assert Placed(s, t);
    }
  }

  /** A call's counters are exactly its PUTs by outcome, in whatever order they ended. */
  lemma ResultsExact(limit: nat, es: seq<Event>, call: nat)
    ensures var s := Run(Initial(limit), es);
            && ResultOf(s, call) == Counts(|EndedAs(s, call, true)|, |EndedAs(s, call, false)|)
            && (AllEnded(s) ==>
                  ResultOf(s, call).ok + ResultOf(s, call).failed == |set t | t in s.calls && s.calls[t] == call|)
  {
    InitialValid(limit);
    RunKeeps(Initial(limit), es);
    hide Run, S.Valid, Placed;
    var s := Run(Initial(limit), es);
    if AllEnded(s) {
      var done, gone := EndedAs(s, call, true), EndedAs(s, call, false);
      assert (set t | t in s.calls && s.calls[t] == call) == done + gone;
      assert done !! gone;
    }
  }

  lemma {:induction false} RunSnoc(s: State, es: seq<Event>, e: Event)
    ensures Run(s, es + [e]) == Step(Run(s, es), e)
    decreases |es|
  {
    hide Step;
    if es == [] {
      assert [] + [e] == [e] && [e][1..] == [];
    } else {
      assert (es + [e])[0] == es[0] && (es + [e])[1..] == es[1..] + [e];
      RunSnoc(Step(s, es[0]), es[1..], e);
    }
  }

  /** The call that starts a task first. */
  function StartedBy(es: seq<Event>, t: Task): Option<nat> {
    if es == [] then None
    else
      var before, last := StartedBy(es[..|es| - 1], t), es[|es| - 1];
      if before.None? && last.Starts? && last.task == t then Some(last.call) else before
  }

  /** How often a PUT in flight of this call ends this way. */
  function EndsOf(limit: nat, es: seq<Event>, call: nat, ok: bool): nat {
    if es == [] then 0
    else
      var front, last := es[..|es| - 1], es[|es| - 1];
      var mine := last.PutEnds? && last.ok == ok && last.task in Run(Initial(limit), front).sem.holders
                  && StartedBy(front, last.task) == Some(call);
      EndsOf(limit, front, call, ok) + if mine then 1 else 0
  }

  /** Which tasks are started, for which call, and what each call counts, from the events alone. */
  lemma {:induction false} PoolFollowsEvents(limit: nat, es: seq<Event>)
    ensures var s := Run(Initial(limit), es);
            && (forall t :: StartedBy(es, t) == if t in s.calls then Some(s.calls[t]) else None)
            && (forall call ::
                  ResultOf(s, call) == Counts(EndsOf(limit, es, call, true), EndsOf(limit, es, call, false)))
    decreases |es|
  {
    if es != [] {
      var front, last := es[..|es| - 1], es[|es| - 1];
      assert es == front + [last];
      PoolFollowsEvents(limit, front);
      RunSnoc(Initial(limit), front, last);
      hide S.Step, Run;
    }
  }

  /** The PUTs in flight that end while a run goes on. */
  function Ends(s: State, es: seq<Event>): nat
    decreases |es|
  {
    if es == [] then 0 else (if Effective(s, es[0]) then 1 else 0) + Ends(Step(s, es[0]), es[1..])
  }

  /** Each end of a PUT in flight ends one task for good, so after as many ends as tasks all have ended. */
  lemma {:induction false} EveryTaskEnds(s: State, es: seq<Event>)
    requires Valid(s)
    ensures |Run(s, es).ended| == |s.ended| + Ends(s, es)
    ensures |s.ended| + Ends(s, es) == |Run(s, es).calls| ==> AllEnded(Run(s, es))
    decreases |es|
  {
    RunKeeps(s, es);
    var v := Run(s, es);
    EndedStarted(v);
    if es != [] {
      StepKeeps(s, es[0]);
      OneEnd(s, es[0]);
      hide Valid, Step, AllEnded, Effective;
      EveryTaskEnds(Step(s, es[0]), es[1..]);
    }
  }

  lemma EndedStarted(s: State)
    requires Valid(s)
    ensures |s.ended| == |s.calls| ==> AllEnded(s)
  {
    hide S.Valid, CountsRight;
    forall t | t in s.ended ensures t in s.calls {
      assert Placed(s, t);
    }
    if |s.ended| == |s.calls| {
      Same(s.ended.Keys, s.calls.Keys);
    }
  }

  lemma Same<T>(a: set<T>, b: set<T>)
    requires a <= b && |a| == |b|
    ensures a == b
  {
    if a != b {
      var x :| x in b && x !in a;
      assert a <= b - {x};
      Fewer(a, b - {x});
    }
  }

  lemma Fewer<T>(a: set<T>, b: set<T>)
    requires a <= b
    ensures |a| <= |b|
  {
    assert b == a + (b - a);
  }

  lemma OneEnd(s: State, e: Event)
    requires Valid(s)
    ensures |Step(s, e).ended| == |s.ended| + if Effective(s, e) then 1 else 0
  {
    hide S.Step, S.Valid, CountsRight, ResultOf, Counted;
    assert Placed(s, e.task);
    if Effective(s, e) {
      assert Step(s, e).ended.Keys == s.ended.Keys + {e.task};
      assert |s.ended.Keys| == |s.ended|;
    }
  }
}
