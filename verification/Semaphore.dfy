/** The counting semaphore that bounds concurrent uploads (packages/reporter/src/artifact-uploader.ts). */
module Semaphore {

  type Task = nat

  /** `holders` is who has a slot; the code only counts them. */
  datatype State = State(limit: nat, active: nat, waiters: seq<Task>, holders: set<Task>)

  datatype Event = Acquire(task: Task) | Release(task: Task)

  /** A task acquires once at a time, and only a holder releases. */
  predicate Enabled(s: State, e: Event) {
    match e
    case Acquire(t) => t !in s.holders && t !in s.waiters
    case Release(t) => t in s.holders
  }

  function Step(s: State, e: Event): State {
    if !Enabled(s, e) then s
    else
      match e
      case Acquire(t) =>
        if s.active < s.limit then s.(active := s.active + 1, holders := s.holders + {t})
        else s.(waiters := s.waiters + [t])
      case Release(t) =>
        if s.waiters != [] then s.(waiters := s.waiters[1..], holders := s.holders - {t} + {s.waiters[0]})
        else s.(active := if s.active == 0 then 0 else s.active - 1, holders := s.holders - {t})
  }

  function Run(s: State, es: seq<Event>): State
    decreases |es|
  {
    if es == [] then s else Run(Step(s, es[0]), es[1..])
  }

  /** Slots taken are exactly the holders, within the limit; somebody waits only when all are taken. */
  ghost predicate Valid(s: State) {
    && s.active == |s.holders| <= s.limit
    && (s.waiters != [] ==> s.active == s.limit)
    && (forall i, j :: 0 <= i < j < |s.waiters| ==> s.waiters[i] != s.waiters[j])
    && (forall i :: 0 <= i < |s.waiters| ==> s.waiters[i] !in s.holders)
  }

  lemma StepKeeps(s: State, e: Event)
    requires Valid(s)
    ensures Valid(Step(s, e)) && Step(s, e).limit == s.limit
  {
    if Enabled(s, e) {
      match e
      case Acquire(t) => assert |s.holders + {t}| == |s.holders| + 1;
      case Release(t) =>
        assert |s.holders - {t}| == |s.holders| - 1;
        if s.waiters != [] {
          assert |s.holders - {t} + {s.waiters[0]}| == |s.holders|;
        }
    }
  }

  lemma {:induction false} RunKeeps(s: State, es: seq<Event>)
    requires Valid(s)
    ensures Valid(Run(s, es)) && Run(s, es).limit == s.limit
    decreases |es|
  {
    if es != [] {
      StepKeeps(s, es[0]);
      RunKeeps(Step(s, es[0]), es[1..]);
    }
  }

  /** How many releases a run performs. */
  function Releases(s: State, es: seq<Event>): nat
    decreases |es|
  {
    if es == [] then 0
    else (if es[0].Release? && Enabled(s, es[0]) then 1 else 0) + Releases(Step(s, es[0]), es[1..])
  }

  function Acquires(s: State, es: seq<Event>): nat
    decreases |es|
  {
    if es == [] then 0
    else (if es[0].Acquire? && Enabled(s, es[0]) then 1 else 0) + Acquires(Step(s, es[0]), es[1..])
  }

  /** First in, first out: up to its turn, a waiter moves up by one at every release and at nothing else. */
  lemma {:induction false} WaiterMovesUp(s: State, es: seq<Event>, k: nat)
    requires Valid(s) && k < |s.waiters| && Releases(s, es) <= k
    ensures var t := Run(s, es);
            k - Releases(s, es) < |t.waiters| && t.waiters[k - Releases(s, es)] == s.waiters[k]
    decreases |es|
  {
    if es != [] {
      StepKeeps(s, es[0]);
      StepMovesUp(s, es[0], k);
      hide Valid, Step, Enabled;
      var moved := if es[0].Release? && Enabled(s, es[0]) then 1 else 0;
      WaiterMovesUp(Step(s, es[0]), es[1..], k - moved);
    }
  }

  lemma StepMovesUp(s: State, e: Event, k: nat)
    requires k < |s.waiters|
    ensures var moved := if e.Release? && Enabled(s, e) then 1 else 0;
            k >= moved ==> k - moved < |Step(s, e).waiters| && Step(s, e).waiters[k - moved] == s.waiters[k]
  {
  }

  /** The waiter at position `k` gets its slot at the release after the next `k`, not before. */
  lemma WaiterGranted(s: State, es: seq<Event>, e: Event, k: nat)
    requires Valid(s) && k < |s.waiters|
    requires Releases(s, es) == k && e.Release? && Enabled(Run(s, es), e)
    ensures s.waiters[k] !in Run(s, es).holders && s.waiters[k] in Step(Run(s, es), e).holders
  {
    WaiterMovesUp(s, es, k);
    RunKeeps(s, es);
  }

  /** Slots held and waited for are acquisitions less releases; once these balance, every slot is free. */
  lemma {:induction false} NoSlotLeaked(s: State, es: seq<Event>)
    requires Valid(s)
    ensures var t := Run(s, es);
            |t.holders| + |t.waiters| == |s.holders| + |s.waiters| + Acquires(s, es) - Releases(s, es)
    ensures s.holders == {} && s.waiters == [] && Acquires(s, es) == Releases(s, es) ==>
              Run(s, es).active == 0 && Run(s, es).waiters == []
    decreases |es|
  {
    RunKeeps(s, es);
    if es != [] {
      StepKeeps(s, es[0]);
      if Enabled(s, es[0]) && es[0].Release? {
        assert |s.holders - {es[0].task}| == |s.holders| - 1;
      }
      NoSlotLeaked(Step(s, es[0]), es[1..]);
    }
  }

  class Semaphore {
    const limit: nat
    var active: nat
    var waiters: seq<Task>
    ghost var holders: set<Task>

    ghost function Abstract(): State
      reads this
    {
      State(limit, active, waiters, holders)
    }

    constructor (limit: nat)
      ensures Abstract() == State(limit, 0, [], {}) && Valid(Abstract())
    {
      this.limit := limit;
      active, waiters, holders := 0, [], {};
    }

    /** Returns whether the slot is had at once; if not, the task waits for its turn. */
    method AcquireSlot(task: Task) returns (had: bool)
      requires Valid(Abstract()) && Enabled(Abstract(), Acquire(task))
      modifies this
      ensures Abstract() == Step(old(Abstract()), Acquire(task)) && Valid(Abstract())
      ensures had <==> task in holders
    {
      StepKeeps(Abstract(), Acquire(task));
      if active < limit {
        active := active + 1;
        holders := holders + {task};
        return true;
      }
      waiters := waiters + [task];
      return false;
    }

    /** Hands the slot to the first waiter, or frees it. */
    method ReleaseSlot(ghost task: Task)
      requires Valid(Abstract()) && Enabled(Abstract(), Release(task))
      modifies this
      ensures Abstract() == Step(old(Abstract()), Release(task)) && Valid(Abstract())
    {
      StepKeeps(Abstract(), Release(task));
      assert |holders - {task}| == |holders| - 1;
      if |waiters| > 0 {
        holders := holders - {task} + {waiters[0]};
        waiters := waiters[1..];
      } else {
        active := active - 1;
        holders := holders - {task};
      }
    }
  }
}
