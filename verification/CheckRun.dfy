/**
 * Posting one GitHub check run per finished run (apps/dashboard/src/lib/github-checks.ts over
 * postWithClaimedSlot of apps/dashboard/src/lib/github-surface-post.ts). Any number of processes run the
 * sequence concurrently, may stall between any two steps (also between reading the clock and the claim
 * that writes the reading), and may crash; every UPDATE is one atomic step and the clock never goes back.
 */
module CheckRun {
  import opened Prelude
  import opened Lease
  import L = Lease

  /** The two columns of the run's row. */
  datatype Row = Row(checkRunId: Option<int>, claimedAt: Option<int>)

  // ----- The three updates -----

  predicate CanClaim(row: Row, now: int) {
    row.checkRunId.None? && Claimable(row.claimedAt, now)
  }

  function Released(row: Row, claim: int): Row {
    row.(claimedAt := Cleared(row.claimedAt, claim))
  }

  /** A PATCH echoing the known id writes nothing; a claimed write is conditional on the claim. */
  function Persisted(row: Row, id: int, claim: Option<int>, existingId: Option<int>): Row {
    if existingId == Some(id) then row
    else if claim.Some? && row.claimedAt != claim then row
    else Row(Some(id), None)
  }

  class RunRow {
    var githubCheckRunId: Option<int>
    var githubCheckClaimedAt: Option<int>

    function State(): Row
      reads this
    {
      Row(githubCheckRunId, githubCheckClaimedAt)
    }

    method ClaimCheckRunSlot(nowSeconds: int) returns (claim: Option<int>)
      modifies this
      ensures claim.Some? <==> CanClaim(old(State()), nowSeconds)
      ensures claim.Some? <==> old(githubCheckRunId).None? && (old(githubCheckClaimedAt).None? ||
                                 old(githubCheckClaimedAt).value + CLAIM_TTL_SECONDS < nowSeconds)
      ensures claim.Some? ==> claim.value == nowSeconds && State() == old(State()).(claimedAt := claim)
      ensures claim.None? ==> State() == old(State())
    {
      if githubCheckRunId == None
         && (githubCheckClaimedAt == None || githubCheckClaimedAt.value < nowSeconds - CLAIM_TTL_SECONDS) {
        githubCheckClaimedAt := Some(nowSeconds);
        return Some(nowSeconds);
      }
      return None;
    }

    method Release(claim: int)
      modifies this
      ensures State() == Released(old(State()), claim)
      ensures githubCheckRunId == old(githubCheckRunId)
      ensures githubCheckClaimedAt ==
              if old(githubCheckClaimedAt) == Some(claim) then None else old(githubCheckClaimedAt)
    {
      if githubCheckClaimedAt == Some(claim) { githubCheckClaimedAt := None; }
    }

    method Persist(id: int, claim: Option<int>, existingId: Option<int>)
      modifies this
      ensures State() == Persisted(old(State()), id, claim, existingId)
      ensures var writes := existingId != Some(id) && (claim.None? || old(githubCheckClaimedAt) == claim);
              State() == if writes then Row(Some(id), None) else old(State())
    {
      if existingId == Some(id) { return; }
      if claim == None || githubCheckClaimedAt == claim {
        githubCheckRunId, githubCheckClaimedAt := Some(id), None;
      }
    }
  }

  // ----- The protocol -----

  datatype Phase =
    | Idle
    | Ready(initialId: Option<int>)                     // the context has been read
    | Claiming(now: int)                                // the clock has been read, the claim is on its way
    | Lost                                              // the claim failed; the id is read again next
    | Posting(existingId: Option<int>, landed: bool)    // PATCH of an id, or POST, and whether it reached GitHub
    | Posted(id: int, existingId: Option<int>)
    | Releasing
    | Done

  /** How a request ends here. Whether it took effect at GitHub is decided before, by the `Lands` step. */
  datatype Outcome = Wrote(id: int) | NoId | Failed

  /** `tokens` holds the claim of every process that has one and has not finished. */
  datatype World = World(
    row: Row,
    clock: int,
    phases: map<Process, Phase>,
    tokens: map<Process, int>,
    claimedPersists: nat,   // claimed writes of an id that took effect
    created: nat,           // POSTs that made a check run at GitHub
    adrift: set<Process>)   // whose POST may still reach GitHub though nobody waits for it any more

  datatype Event =
    | Tick(seconds: nat)
    | Begin(p: Process)
    | ReadClock(p: Process)
    | Claim(p: Process)
    | Reread(p: Process)
    | Lands(p: Process)
    | Straggles(p: Process)
    | PostEnds(p: Process, outcome: Outcome)
    | Persist(p: Process)
    | Release(p: Process)
    | Crash(p: Process)

  function PhaseOf(w: World, p: Process): Phase {
    if p in w.phases then w.phases[p] else Idle
  }

  function Token(w: World, p: Process): Option<int> {
    if p in w.tokens then Some(w.tokens[p]) else None
  }

  function Goto(w: World, p: Process, phase: Phase): World {
    w.(phases := w.phases[p := phase])
  }

  function Finish(w: World, p: Process): World {
    Goto(w, p, Done).(tokens := w.tokens - {p})
  }

  /** Nobody waits any more for a POST of `p` that has not landed. */
  function Abandon(w: World, p: Process): World {
    if PhaseOf(w, p) == Posting(None, false) then w.(adrift := w.adrift + {p}) else w
  }

  /** One step of one process, or of the clock; an event that does not fit the phase does nothing. */
  function Step(w: World, e: Event): World {
    match e
    case Tick(seconds) => w.(clock := w.clock + seconds)
    case Begin(p) => if PhaseOf(w, p).Idle? then Goto(w, p, Ready(w.row.checkRunId)) else w
    case ReadClock(p) =>
      // with a known id there is nothing to claim
      if !PhaseOf(w, p).Ready? then w
      else if PhaseOf(w, p).initialId.Some? then Goto(w, p, Posting(PhaseOf(w, p).initialId, false))
      else Goto(w, p, Claiming(w.clock))
    case Claim(p) =>
      if !PhaseOf(w, p).Claiming? then w
      else
        var now := PhaseOf(w, p).now;
        if CanClaim(w.row, now) then
          Goto(w, p, Posting(None, false)).(row := w.row.(claimedAt := Some(now)), tokens := w.tokens[p := now])
        else Goto(w, p, Lost)
    case Reread(p) =>
      if !PhaseOf(w, p).Lost? then w
      else if w.row.checkRunId.None? then Finish(w, p)
      else Goto(w, p, Posting(w.row.checkRunId, false))
    case Lands(p) =>
      if !PhaseOf(w, p).Posting? || PhaseOf(w, p).landed then w
      else
        var existingId := PhaseOf(w, p).existingId;
        Goto(w, p, Posting(existingId, true)).(created := w.created + if existingId.None? then 1 else 0)
    case Straggles(p) => if p in w.adrift then w.(created := w.created + 1, adrift := w.adrift - {p}) else w
    case PostEnds(p, outcome) =>
      if !PhaseOf(w, p).Posting? || (!outcome.Failed? && !PhaseOf(w, p).landed) then w
      else if outcome.Wrote? then Goto(w, p, Posted(outcome.id, PhaseOf(w, p).existingId))
      else if p in w.tokens then Goto(Abandon(w, p), p, Releasing)
      else Finish(w, p)
    case Persist(p) =>
      if !PhaseOf(w, p).Posted? then w
      else
        var Posted(id, existingId) := PhaseOf(w, p);
        var row := Persisted(w.row, id, Token(w, p), existingId);
        Finish(w, p).(row := row,
                      claimedPersists := w.claimedPersists + if p in w.tokens && row != w.row then 1 else 0)
    case Release(p) =>
      if !PhaseOf(w, p).Releasing? || p !in w.tokens then w
      else Finish(w, p).(row := Released(w.row, w.tokens[p]))
    case Crash(p) => Finish(Abandon(w, p), p)
  }

  function Run(w: World, es: seq<Event>): World
    decreases |es|
  {
    if es == [] then w else Run(Step(w, es[0]), es[1..])
  }

  /** A run's row before anybody posts for it: no id yet, perhaps a claim that a crashed poster left. */
  predicate Fresh(w: World) {
    && w.row.checkRunId.None? && (w.row.claimedAt.Some? ==> w.row.claimedAt.value <= w.clock)
    && w.phases == map[] && w.tokens == map[] && w.claimedPersists == 0 && w.created == 0
    && w.adrift == {}
  }

  /** The check run of `p` is at GitHub and the row does not have its id yet. */
  predicate Unrecorded(w: World, p: Process) {
    p in w.tokens && (PhaseOf(w, p).Posted? || (PhaseOf(w, p).Posting? && PhaseOf(w, p).landed))
  }

  /** What each phase knows. */
  ghost predicate PhaseOk(w: World, p: Process) {
    && (Unrecorded(w, p) ==> w.created >= 1)
    && match PhaseOf(w, p)
       case Idle => p !in w.tokens
       case Ready(initialId) => p !in w.tokens && (initialId.Some? ==> w.row.checkRunId.Some?)
       case Claiming(now) => p !in w.tokens && now <= w.clock
       case Lost => p !in w.tokens
       case Posting(existingId, _) =>
         (p in w.tokens <==> existingId.None?) && (existingId.Some? ==> w.row.checkRunId.Some?)
       case Posted(_, existingId) =>
         (p in w.tokens <==> existingId.None?) && (existingId.Some? ==> w.row.checkRunId.Some?)
       case Releasing => p in w.tokens
       case Done => p !in w.tokens
  }

  /** What every step keeps, however long anybody stalls. */
  ghost predicate Base(w: World) {
    && (w.row.checkRunId.Some? ==> w.row.claimedAt.None? && w.created >= 1)
    && w.claimedPersists == (if w.row.checkRunId.Some? then 1 else 0)
    && forall p: Process :: PhaseOk(w, p)
  }

  lemma FreshBase(w: World)
    requires Fresh(w)
    ensures Base(w) && Leased(LeaseOf(w)) && InTime(LeaseOf(w), 0)
  {
  }

  /** What a step leaves alone: other processes, an id once there is one, and counters that only grow. */
  lemma StepFrame(w: World, e: Event, q: Process)
    ensures e.Tick? || e.p != q ==> PhaseOf(Step(w, e), q) == PhaseOf(w, q) && Token(Step(w, e), q) == Token(w, q)
    ensures w.row.checkRunId.Some? ==> Step(w, e).row.checkRunId.Some?
    ensures w.created <= Step(w, e).created && w.clock <= Step(w, e).clock
  {
    hide CanClaim, Cleared;
  }

  lemma OwnPhaseKept(w: World, e: Event)
    requires Base(w) && !e.Tick?
    ensures PhaseOk(Step(w, e), e.p)
  {
    hide CanClaim, Cleared;
    assert PhaseOk(w, e.p);
  }

  /** A step of one process keeps what every phase knows. */
  lemma PhasesKept(w: World, e: Event, q: Process)
    requires Base(w)
    ensures PhaseOk(Step(w, e), q)
  {
    hide Step;
    assert PhaseOk(w, q);
    StepFrame(w, e, q);
    if !e.Tick? && e.p == q {
      OwnPhaseKept(w, e);
    }
  }

  lemma StepKeeps(w: World, e: Event)
    requires Base(w)
    ensures Base(Step(w, e))
  {
    if !e.Tick? {
      assert PhaseOk(w, e.p);
    }
    hide PhaseOk;
    forall q: Process ensures PhaseOk(Step(w, e), q) {
      PhasesKept(w, e, q);
    }
  }

  lemma {:induction false} RunKeeps(w: World, es: seq<Event>)
    requires Base(w)
    ensures Base(Run(w, es))
    decreases |es|
  {
    if es != [] {
      StepKeeps(w, es[0]);
      hide Base, Step;
      RunKeeps(Step(w, es[0]), es[1..]);
    }
  }

  // ----- Whole runs, whatever stalls or crashes -----

  /** At most one claimed write of an id ever takes effect, exactly when the row has an id. */
  lemma AtMostOneClaimedPersist(w: World, es: seq<Event>)
    requires Fresh(w)
    ensures Run(w, es).claimedPersists <= 1
    ensures Run(w, es).claimedPersists == 1 <==> Run(w, es).row.checkRunId.Some?
  {
    FreshBase(w);
    RunKeeps(w, es);
  }

  /** Once the row has an id it keeps one, and no process obtains a claim any more. */
  lemma {:induction false} NoClaimAfterId(w: World, es: seq<Event>)
    requires w.row.checkRunId.Some?
    ensures Run(w, es).row.checkRunId.Some? && Run(w, es).tokens.Keys <= w.tokens.Keys
    decreases |es|
  {
    if es != [] {
      StepAfterId(w, es[0]);
      hide Step;
      NoClaimAfterId(Step(w, es[0]), es[1..]);
    }
  }

  lemma StepAfterId(w: World, e: Event)
    requires w.row.checkRunId.Some?
    ensures Step(w, e).row.checkRunId.Some? && Step(w, e).tokens.Keys <= w.tokens.Keys
  {
  }

  // ----- The claim column as a lease -----

  function LeaseOf(w: World): Lease {
    Lease(w.row.claimedAt, w.clock, w.tokens)
  }

  /** What a step does to the lease. */
  function ActOf(w: World, e: Event): Act {
    match e
    case Tick(seconds) => Wait(seconds)
    case Claim(p) =>
      if PhaseOf(w, p).Claiming? && CanClaim(w.row, PhaseOf(w, p).now) then Take(p, PhaseOf(w, p).now) else Stutter
    case Persist(p) => if PhaseOf(w, p).Posted? && p in w.tokens then Clear(p) else Stutter
    case Release(p) => if PhaseOf(w, p).Releasing? && p in w.tokens then Clear(p) else Stutter
    case Crash(p) => Drop(p)
    case _ => Stutter
  }

  lemma StepRefines(w: World, e: Event)
    requires Base(w)
    ensures Legal(LeaseOf(w), ActOf(w, e)) && Apply(LeaseOf(w), ActOf(w, e)) == LeaseOf(Step(w, e))
  {
    if !e.Tick? {
      assert PhaseOk(w, e.p);
      assert e.p !in w.tokens ==> w.tokens - {e.p} == w.tokens;
    }
  }

  function Acts(w: World, es: seq<Event>): seq<Act>
    decreases |es|
  {
    if es == [] then [] else [ActOf(w, es[0])] + Acts(Step(w, es[0]), es[1..])
  }

  /** Every run of the protocol is a run of the lease. */
  lemma {:induction false} RunRefines(w: World, es: seq<Event>)
    requires Base(w)
    ensures LegalRun(LeaseOf(w), Acts(w, es)) && ApplyAll(LeaseOf(w), Acts(w, es)) == LeaseOf(Run(w, es))
    decreases |es|
  {
    if es != [] {
      StepKeeps(w, es[0]);
      StepRefines(w, es[0]);
      hide Base, Step, ActOf, LeaseOf, Legal, Apply;
      RunRefines(Step(w, es[0]), es[1..]);
    }
  }

  /** Every claim of the run lands at most `delay` seconds after its clock reading. */
  ghost predicate AllPrompt(w: World, es: seq<Event>, delay: int) {
    Base(w) && (RunRefines(w, es); L.AllPrompt(LeaseOf(w), Acts(w, es), delay))
  }

  /** No holder ever takes more than `limit` seconds from its clock reading on. */
  ghost predicate Timely(w: World, es: seq<Event>, limit: int) {
    Base(w) && (RunRefines(w, es); L.Timely(LeaseOf(w), Acts(w, es), limit))
  }

  /**
   * A POST that lands is recorded: its process neither crashes first nor loses the response, and a POST that
   * nobody waits for does not land.
   */
  predicate Records(w: World, e: Event) {
    if e.Straggles? then e.p !in w.adrift
    else e.Crash? || (e.PostEnds? && PhaseOf(w, e.p).Posting? && !e.outcome.Wrote?) ==> !Unrecorded(w, e.p)
  }

  ghost predicate AlwaysRecords(w: World, es: seq<Event>)
    decreases |es|
  {
    es == [] || (Records(w, es[0]) && AlwaysRecords(Step(w, es[0]), es[1..]))
  }

  /** The step rules of a run, one step at a time. */
  lemma Cons(w: World, e: Event, es: seq<Event>, n: int)
    requires Base(w)
    ensures Base(Step(w, e)) && Run(w, [e] + es) == Run(Step(w, e), es)
    ensures AllPrompt(w, [e] + es, n) <==> Prompt(LeaseOf(w), ActOf(w, e), n) && AllPrompt(Step(w, e), es, n)
    ensures Timely(w, [e] + es, n) <==> InTime(LeaseOf(w), n) && Timely(Step(w, e), es, n)
    ensures AlwaysRecords(w, [e] + es) <==> Records(w, e) && AlwaysRecords(Step(w, e), es)
  {
    StepKeeps(w, e);
    StepRefines(w, e);
    RunRefines(w, [e] + es);
    RunRefines(Step(w, e), es);
    hide Base, Step, ActOf, LeaseOf, Legal, Apply, InTime, Prompt, Records;
    assert ([e] + es)[1..] == es;
    var acts := Acts(w, [e] + es);
    assert acts[0] == ActOf(w, e) && acts[1..] == Acts(Step(w, e), es);
  }

  // ----- Superseded holders -----

  /** Neither a write nor a release under this token would change the row. */
  ghost predicate Powerless(row: Row, token: int) {
    Released(row, token) == row && forall id: int :: Persisted(row, id, Some(token), None) == row
  }

  lemma PowerlessIff(row: Row, token: int)
    ensures Powerless(row, token) <==> row.claimedAt != Some(token)
  {
    if row.claimedAt == Some(token) {
      assert Released(row, token) != row;
    }
  }

  /** Once a holder's claim was taken over, its write and its release change nothing if claims are prompt. */
  lemma SupersededIsHarmless(w: World, es: seq<Event>, p: Process)
    requires Base(w) && Leased(LeaseOf(w)) && Superseded(LeaseOf(w), p)
    requires AllPrompt(w, es, CLAIM_TTL_SECONDS)
    ensures Powerless(Run(w, es).row, w.tokens[p])
  {
    RunRefines(w, es);
    SupersededStays(LeaseOf(w), Acts(w, es), p);
    PowerlessIff(Run(w, es).row, w.tokens[p]);
  }

  /** Holders that finish in time exclude each other. */
  lemma HoldersExclude(w: World, es: seq<Event>)
    requires Leased(LeaseOf(w)) && Timely(w, es, CLAIM_TTL_SECONDS)
    ensures Alone(Run(w, es).tokens)
  {
    RunRefines(w, es);
    L.HoldersExclude(LeaseOf(w), Acts(w, es));
  }

  // ----- One check run -----

  /** A check run exists at GitHub only if the row has its id, or a holder goes on to write it. */
  ghost predicate OneCreated(w: World) {
    w.created <= 1 && (w.created == 1 ==> w.row.checkRunId.Some? || exists p :: Unrecorded(w, p))
  }

  /** All that is known while holders are in time. */
  ghost predicate Inv(w: World) {
    Base(w) && Leased(LeaseOf(w)) && InTime(LeaseOf(w), CLAIM_TTL_SECONDS)
  }

  lemma InvKept(w: World, e: Event)
    requires Inv(w) && InTime(LeaseOf(Step(w, e)), CLAIM_TTL_SECONDS)
    ensures Inv(Step(w, e))
  {
    StepKeeps(w, e);
    StepRefines(w, e);
    var l, a := LeaseOf(w), ActOf(w, e);
    hide Base, Step, ActOf, LeaseOf;
    if a.Take? {
      assert a.p in Apply(l, a).tokens;
    }
    ApplyKeeps(l, a);
  }

  /** In time, whoever has a claim is the only one and the row has no id. */
  lemma OneHolder(w: World, p: Process)
    requires Inv(w) && p in w.tokens
    ensures w.row.claimedAt == Some(w.tokens[p]) && w.row.checkRunId.None?
    ensures forall q :: q in w.tokens ==> q == p
  {
    Exclusive(LeaseOf(w));
  }

  lemma StepCreates(w: World, e: Event)
    requires Inv(w) && OneCreated(w) && Records(w, e)
    ensures OneCreated(Step(w, e))
  {
    if !e.Tick? {
      assert PhaseOk(w, e.p);
      if e.p in w.tokens { OneHolder(w, e.p); }
    }
    if w.created == 1 && w.row.checkRunId.None? {
      var p :| Unrecorded(w, p);
      OneHolder(w, p);
      assert PhaseOk(w, p);
      if e.Tick? || e.p != p || !e.Persist? {
        assert Unrecorded(Step(w, e), p);
      }
    } else if e.Lands? && Step(w, e).created == 1 {
      assert Unrecorded(Step(w, e), e.p) || w.row.checkRunId.Some?;
    }
  }

  /** A landed check run whose id is not recorded is lost. */
  lemma StepLoses(w: World, e: Event)
    requires Inv(w) && !Records(w, e)
    ensures !OneCreated(Step(w, e))
  {
    assert PhaseOk(w, e.p);
    if !e.Straggles? {
      OneHolder(w, e.p);
    }
    forall q ensures Step(w, e).created <= 1 ==> !Unrecorded(Step(w, e), q) {
      assert PhaseOk(w, q);
    }
  }

  /** A lost check run stays lost, and two stay two. */
  lemma StepDoomed(w: World, e: Event)
    requires Base(w) && !OneCreated(w)
    ensures !OneCreated(Step(w, e))
  {
    assert w.created <= 1 ==> forall q :: !Unrecorded(w, q);
    if !e.Tick? {
      assert PhaseOk(w, e.p) && (Unrecorded(w, e.p) ==> w.created > 1);
    }
    forall q ensures Step(w, e).created <= 1 ==> !Unrecorded(Step(w, e), q) {
      assert !Unrecorded(w, q) || w.created > 1;
    }
  }

  /** From a sound state, timely runs that record every landed check run keep at most one. */
  lemma {:induction false} RunCreates(w: World, es: seq<Event>)
    requires Inv(w) && OneCreated(w) && Timely(w, es, CLAIM_TTL_SECONDS) && AlwaysRecords(w, es)
    ensures Inv(Run(w, es)) && OneCreated(Run(w, es))
    decreases |es|
  {
    if es != [] {
      TimelyHead(w, es);
      InvKept(w, es[0]);
      StepCreates(w, es[0]);
      hide Inv, Base, Step, OneCreated, Timely;
      RunCreates(Step(w, es[0]), es[1..]);
    }
  }

  lemma TimelyHead(w: World, es: seq<Event>)
    requires es != [] && Timely(w, es, CLAIM_TTL_SECONDS)
    ensures Base(Step(w, es[0])) && Timely(Step(w, es[0]), es[1..], CLAIM_TTL_SECONDS)
    ensures InTime(LeaseOf(Step(w, es[0])), CLAIM_TTL_SECONDS)
  {
    hide Base, Step, LeaseOf, InTime;
    assert [es[0]] + es[1..] == es;
    Cons(w, es[0], es[1..], CLAIM_TTL_SECONDS);
    TimelyNow(Step(w, es[0]), es[1..]);
  }

  lemma TimelyNow(w: World, es: seq<Event>)
    requires Timely(w, es, CLAIM_TTL_SECONDS)
    ensures InTime(LeaseOf(w), CLAIM_TTL_SECONDS)
  {
    RunRefines(w, es);
    hide Base, LeaseOf, Acts, InTime;
  }

  /** If holders are in time and record what landed, at most one check run is ever created for the run. */
  lemma AtMostOneCheckRun(w: World, es: seq<Event>)
    requires Fresh(w) && Timely(w, es, CLAIM_TTL_SECONDS) && AlwaysRecords(w, es)
    ensures Run(w, es).created <= 1
  {
    FreshBase(w);
    RunCreates(w, es);
  }

  // ----- Why each condition is needed -----

  /** Undisturbed, a process that nobody has heard of makes a check run. */
  function Attempt(p: Process): seq<Event> {
    [Begin(p), ReadClock(p), Claim(p), Lands(p)]
  }

  function Attempted(w: World, p: Process): World {
    w.(row := w.row.(claimedAt := Some(w.clock)), phases := w.phases[p := Posting(None, true)],
       tokens := w.tokens[p := w.clock], created := w.created + 1)
  }

  lemma AttemptLands(w: World, p: Process, es: seq<Event>, n: nat)
    requires Base(w) && PhaseOf(w, p).Idle? && CanClaim(w.row, w.clock)
    ensures Base(Attempted(w, p)) && Run(w, Attempt(p) + es) == Run(Attempted(w, p), es)
    ensures InTime(LeaseOf(w), n) && Timely(Attempted(w, p), es, n) ==> Timely(w, Attempt(p) + es, n)
    ensures AlwaysRecords(Attempted(w, p), es) ==> AlwaysRecords(w, Attempt(p) + es)
  {
    hide Run, Timely, AllPrompt, AlwaysRecords, Base, Leased;
    var begun := Step(w, Begin(p));
    var read := Step(begun, ReadClock(p));
    assert read == w.(phases := w.phases[p := Claiming(w.clock)]);
    var claimed := Step(read, Claim(p));
    assert claimed == w.(row := w.row.(claimedAt := Some(w.clock)), phases := w.phases[p := Posting(None, false)],
                         tokens := w.tokens[p := w.clock]);
    assert Step(claimed, Lands(p)) == Attempted(w, p);
    Cons(w, Begin(p), [ReadClock(p)] + ([Claim(p)] + ([Lands(p)] + es)), n);
    Cons(begun, ReadClock(p), [Claim(p)] + ([Lands(p)] + es), n);
    Cons(read, Claim(p), [Lands(p)] + es, n);
    Cons(claimed, Lands(p), es, n);
    assert InTime(LeaseOf(w), n) ==>
        InTime(LeaseOf(begun), n) && InTime(LeaseOf(read), n) && InTime(LeaseOf(claimed), n);
    assert Attempt(p) + es == [Begin(p)] + ([ReadClock(p)] + ([Claim(p)] + ([Lands(p)] + es)));
  }

  lemma Nothing(w: World, n: int)
    requires Base(w)
    ensures Run(w, []) == w && AlwaysRecords(w, []) && (Timely(w, [], n) <==> InTime(LeaseOf(w), n))
    ensures AllPrompt(w, [], n)
  {
  }

  /** Once a landed check run is lost, somebody who is in time and records everything makes another. */
  lemma LostIsDoubled(w: World) returns (es: seq<Event>)
    requires Inv(w) && !OneCreated(w)
    ensures Timely(w, es, CLAIM_TTL_SECONDS) && AlwaysRecords(w, es) && Run(w, es).created >= 2
  {
    hide Run, Timely, AllPrompt, AlwaysRecords;
    if w.created >= 2 {
      es := [];
      Nothing(w, CLAIM_TTL_SECONDS);
    } else {
      var p: Process := 0;
      if w.tokens != map[] {
        p :| p in w.tokens;
        OneHolder(w, p);
      }
      var q := Unused(w.phases.Keys + {p});
      var crashed := Step(w, Crash(p));
      var later := Step(crashed, Tick(CLAIM_TTL_SECONDS + 1));
      assert crashed.tokens == map[];
      Cons(w, Crash(p), [Tick(CLAIM_TTL_SECONDS + 1)] + (Attempt(q) + []), CLAIM_TTL_SECONDS);
      Cons(crashed, Tick(CLAIM_TTL_SECONDS + 1), Attempt(q) + [], CLAIM_TTL_SECONDS);
      AttemptLands(later, q, [], CLAIM_TTL_SECONDS);
      Nothing(Attempted(later, q), CLAIM_TTL_SECONDS);
      es := [Crash(p)] + ([Tick(CLAIM_TTL_SECONDS + 1)] + (Attempt(q) + []));
    }
  }

  /** No timely continuation that records everything makes a second check run. */
  ghost predicate StaysOne(w: World) {
    forall es :: Timely(w, es, CLAIM_TTL_SECONDS) && AlwaysRecords(w, es) ==> Run(w, es).created <= 1
  }

  lemma StaysOneIff(w: World)
    requires Inv(w)
    ensures StaysOne(w) <==> OneCreated(w)
  {
    hide Inv, OneCreated, Timely, AlwaysRecords, Run;
    if OneCreated(w) {
      forall es | Timely(w, es, CLAIM_TTL_SECONDS) && AlwaysRecords(w, es) ensures Run(w, es).created <= 1 {
        RunCreates(w, es);
        AtMostOne(Run(w, es));
      }
    } else {
      var es := LostIsDoubled(w);
    }
  }

  lemma AtMostOne(w: World)
    requires OneCreated(w)
    ensures w.created <= 1
  {
  }

  lemma {:induction false} RunRecords(w: World, es: seq<Event>)
    requires Inv(w) && Timely(w, es, CLAIM_TTL_SECONDS)
    ensures Inv(Run(w, es))
    ensures OneCreated(Run(w, es)) <==> OneCreated(w) && AlwaysRecords(w, es)
    decreases |es|
  {
    if es != [] {
      TimelyHead(w, es);
      InvKept(w, es[0]);
      if !OneCreated(w) {
        StepDoomed(w, es[0]);
      } else if Records(w, es[0]) {
        StepCreates(w, es[0]);
      } else {
        StepLoses(w, es[0]);
      }
      hide Inv, Base, Step, OneCreated, Timely, Records;
      RunRecords(Step(w, es[0]), es[1..]);
    }
  }

  /**
   * In a timely run, holders have recorded every check run that landed if and only if no timely continuation
   * in which they go on to do so can make a second one.
   */
  lemma RecordingIsExact(w: World, es: seq<Event>)
    requires Fresh(w) && Timely(w, es, CLAIM_TTL_SECONDS)
    ensures AlwaysRecords(w, es) <==> StaysOne(Run(w, es))
  {
    FreshBase(w);
    RunRecords(w, es);
    StaysOneIff(Run(w, es));
  }

  /** A holder past its time whose POST lands after a successor's makes a second check run. */
  lemma LateHolderDuplicates(w: World, p: Process, q: Process, n: nat)
    requires Base(w) && PhaseOf(w, p) == Posting(None, false) && PhaseOf(w, q).Idle? && CanClaim(w.row, w.clock)
    ensures var es := Attempt(q) + [Lands(p)];
            && Run(w, es).created == w.created + 2 && AlwaysRecords(w, es)
            && (InTime(LeaseOf(w), n) ==> Timely(w, es, n))
  {
    hide Run, Timely, AllPrompt, AlwaysRecords, Base;
    var landed := Attempted(w, q);
    AttemptLands(w, q, [Lands(p)], n);
    Cons(landed, Lands(p), [], n);
    assert [Lands(p)] + [] == [Lands(p)];
    Nothing(Step(landed, Lands(p)), n);
  }

  /** Runs in which holders take at most `limit` seconds and record what landed never make a second check run. */
  ghost predicate SafeLimit(limit: int) {
    forall w, es :: Fresh(w) && Timely(w, es, limit) && AlwaysRecords(w, es) ==> Run(w, es).created <= 1
  }

  /** A limit on holders is safe exactly when it is at most the time to live. */
  lemma SafeLimitIff(limit: nat)
    ensures SafeLimit(limit) <==> limit <= CLAIM_TTL_SECONDS
  {
    if limit <= CLAIM_TTL_SECONDS {
      forall w, es | Fresh(w) && Timely(w, es, limit) && AlwaysRecords(w, es) ensures Run(w, es).created <= 1 {
        RunRefines(w, es);
        TimelyShorter(LeaseOf(w), Acts(w, es), limit);
        AtMostOneCheckRun(w, es);
      }
    } else {
      var w := World(Row(None, None), 0, map[], map[], 0, 0, {});
      var es := LateRun(w, limit);
    }
  }

  /** Process 0 claims, stalls past the time to live, and lands after process 1. */
  lemma LateRun(w: World, limit: nat) returns (es: seq<Event>)
    requires Fresh(w) && CanClaim(w.row, w.clock) && limit > CLAIM_TTL_SECONDS
    ensures Timely(w, es, limit) && AlwaysRecords(w, es) && Run(w, es).created == 2
  {
    hide Run, Timely, AllPrompt, AlwaysRecords;
    FreshBase(w);
    var begun := Step(w, Begin(0));
    var read := Step(begun, ReadClock(0));
    var claimed := Step(read, Claim(0));
    assert claimed == w.(row := w.row.(claimedAt := Some(w.clock)), phases := map[0 := Posting(None, false)],
                         tokens := map[0 := w.clock]);
    var late := Step(claimed, Tick(CLAIM_TTL_SECONDS + 1));
    var rest := Attempt(1) + [Lands(0)];
    es := [Begin(0)] + ([ReadClock(0)] + ([Claim(0)] + ([Tick(CLAIM_TTL_SECONDS + 1)] + rest)));
    Cons(w, Begin(0), [ReadClock(0)] + ([Claim(0)] + ([Tick(CLAIM_TTL_SECONDS + 1)] + rest)), limit);
    Cons(begun, ReadClock(0), [Claim(0)] + ([Tick(CLAIM_TTL_SECONDS + 1)] + rest), limit);
    Cons(read, Claim(0), [Tick(CLAIM_TTL_SECONDS + 1)] + rest, limit);
    Cons(claimed, Tick(CLAIM_TTL_SECONDS + 1), rest, limit);
    LateHolderDuplicates(late, 0, 1, limit);
  }

  /** A poster that crashes after its POST leaves a check run that the next poster duplicates. */
  lemma CrashDuplicates(w: World)
    requires Fresh(w) && CanClaim(w.row, w.clock)
    ensures var es := Attempt(0) + ([Crash(0)] + ([Tick(CLAIM_TTL_SECONDS + 1)] + Attempt(1)));
            Timely(w, es, CLAIM_TTL_SECONDS) && Run(w, es).created == 2
  {
    hide Run, Timely, AllPrompt, AlwaysRecords;
    FreshBase(w);
    var landed := Attempted(w, 0);
    var crashed := Step(landed, Crash(0));
    var later := Step(crashed, Tick(CLAIM_TTL_SECONDS + 1));
    assert crashed.tokens == map[];
    AttemptLands(w, 0, [Crash(0)] + ([Tick(CLAIM_TTL_SECONDS + 1)] + Attempt(1)), CLAIM_TTL_SECONDS);
    Cons(landed, Crash(0), [Tick(CLAIM_TTL_SECONDS + 1)] + Attempt(1), CLAIM_TTL_SECONDS);
    Cons(crashed, Tick(CLAIM_TTL_SECONDS + 1), Attempt(1), CLAIM_TTL_SECONDS);
    AttemptLands(later, 1, [], CLAIM_TTL_SECONDS);
    assert Attempt(1) + [] == Attempt(1);
    Nothing(Attempted(later, 1), CLAIM_TTL_SECONDS);
  }

  // ----- Why claims must be prompt -----

  /** Whatever claims land within `delay` seconds of their readings, a superseded holder is powerless for good. */
  ghost predicate HarmlessDelay(delay: int) {
    forall w, es, fs, p ::
      Fresh(w) && AllPrompt(w, es, delay) && AllPrompt(Run(w, es), fs, delay) && Superseded(LeaseOf(Run(w, es)), p) ==>
        Powerless(Run(Run(w, es), fs).row, Run(w, es).tokens[p])
  }

  lemma PromptIsHarmless(w: World, es: seq<Event>, fs: seq<Event>, p: Process, delay: int)
    requires Fresh(w) && AllPrompt(w, es, delay) && AllPrompt(Run(w, es), fs, delay) && delay <= CLAIM_TTL_SECONDS
    requires Superseded(LeaseOf(Run(w, es)), p)
    ensures Powerless(Run(Run(w, es), fs).row, Run(w, es).tokens[p])
  {
    var v := Run(w, es);
    FreshBase(w);
    RunRefines(w, es);
    PromptShorter(LeaseOf(w), Acts(w, es), delay);
    L.RunKeeps(LeaseOf(w), Acts(w, es));
    RunRefines(v, fs);
    PromptShorter(LeaseOf(v), Acts(v, fs), delay);
    SupersededIsHarmless(v, fs, p);
  }

  lemma Opens(w: World, p: Process, es: seq<Event>, n: int)
    requires Base(w) && PhaseOf(w, p).Idle? && w.row.checkRunId.None?
    ensures var v := w.(phases := w.phases[p := Claiming(w.clock)]);
            && Base(v) && Run(w, [Begin(p)] + ([ReadClock(p)] + es)) == Run(v, es)
            && (AllPrompt(v, es, n) ==> AllPrompt(w, [Begin(p)] + ([ReadClock(p)] + es), n))
  {
    hide Run, Timely, AllPrompt, AlwaysRecords, Base;
    var begun := Step(w, Begin(p));
    assert Step(begun, ReadClock(p)) == w.(phases := w.phases[p := Claiming(w.clock)]);
    Cons(w, Begin(p), [ReadClock(p)] + es, n);
    Cons(begun, ReadClock(p), es, n);
  }

  /** Processes 0 and 2 read their clocks, 0 claims and stalls, and 1 takes the expired claim over. */
  function TakenOver(): seq<Event> {
    [Begin(2)] + ([ReadClock(2)] + ([Begin(0)] + ([ReadClock(0)] + ([Claim(0)] + (
      [Tick(CLAIM_TTL_SECONDS + 1)] + ([Begin(1)] + ([ReadClock(1)] + ([Claim(1)] + []))))))))
  }

  function AfterTakeover(w: World): World {
    var late := w.clock + CLAIM_TTL_SECONDS + 1;
    w.(row := w.row.(claimedAt := Some(late)), clock := late, tokens := map[0 := w.clock, 1 := late],
       phases := map[2 := Claiming(w.clock), 0 := Posting(None, false), 1 := Posting(None, false)])
  }

  lemma TakeoverRuns(w: World, delay: nat)
    requires Fresh(w) && CanClaim(w.row, w.clock)
    ensures Run(w, TakenOver()) == AfterTakeover(w) && AllPrompt(w, TakenOver(), delay)
  {
    hide Run, Timely, AllPrompt, AlwaysRecords, Base;
    FreshBase(w);
    var last := [Claim(1)] + [];
    var third := [Begin(1)] + ([ReadClock(1)] + last);
    var second := [Claim(0)] + ([Tick(CLAIM_TTL_SECONDS + 1)] + third);
    var a := w.(phases := w.phases[2 := Claiming(w.clock)]);
    var b := a.(phases := a.phases[0 := Claiming(w.clock)]);
    var held := Step(b, Claim(0));
    var late := Step(held, Tick(CLAIM_TTL_SECONDS + 1));
    var c := late.(phases := late.phases[1 := Claiming(late.clock)]);
    Opens(w, 2, [Begin(0)] + ([ReadClock(0)] + second), delay);
    Opens(a, 0, second, delay);
    Cons(b, Claim(0), [Tick(CLAIM_TTL_SECONDS + 1)] + third, delay);
    Cons(held, Tick(CLAIM_TTL_SECONDS + 1), third, delay);
    Opens(late, 1, last, delay);
    Cons(c, Claim(1), [], delay);
    Nothing(Step(c, Claim(1)), delay);
    assert Step(c, Claim(1)) == AfterTakeover(w);
  }

  /** Process 1 fails and releases; then the claim of 2, with its old reading, puts the token of 0 back. */
  lemma LateClaimRevives(w: World, delay: nat)
    requires Fresh(w) && CanClaim(w.row, w.clock) && delay > CLAIM_TTL_SECONDS
    ensures var v := Run(w, TakenOver());
            var fs := [PostEnds(1, Failed)] + ([Release(1)] + ([Claim(2)] + []));
            && AllPrompt(w, TakenOver(), delay) && AllPrompt(v, fs, delay)
            && Superseded(LeaseOf(v), 0) && !Powerless(Run(v, fs).row, v.tokens[0])
  {
    hide Run, Timely, AllPrompt, AlwaysRecords, Base;
    TakeoverRuns(w, delay);
    FreshBase(w);
    RunKeeps(w, TakenOver());
    var v := AfterTakeover(w);
    var failed := Step(v, PostEnds(1, Failed));
    var released := Step(failed, Release(1));
    var revived := Step(released, Claim(2));
    assert revived.row.claimedAt == Some(w.clock);
    Cons(v, PostEnds(1, Failed), [Release(1)] + ([Claim(2)] + []), delay);
    Cons(failed, Release(1), [Claim(2)] + [], delay);
    Cons(released, Claim(2), [], delay);
    Nothing(revived, delay);
    PowerlessIff(revived.row, w.clock);
  }

  /** A superseded holder is powerless for good exactly when no claim lands later than the time to live. */
  lemma HarmlessDelayIff(delay: nat)
    ensures HarmlessDelay(delay) <==> delay <= CLAIM_TTL_SECONDS
  {
    hide Run, Step, AllPrompt, Base, Powerless, TakenOver;
    if delay <= CLAIM_TTL_SECONDS {
      forall w, es, fs, p | Fresh(w) && AllPrompt(w, es, delay) && AllPrompt(Run(w, es), fs, delay)
                            && Superseded(LeaseOf(Run(w, es)), p)
        ensures Powerless(Run(Run(w, es), fs).row, Run(w, es).tokens[p])
      {
        PromptIsHarmless(w, es, fs, p, delay);
      }
    } else {
      LateClaimRevives(World(Row(None, None), 0, map[], map[], 0, 0, {}), delay);
    }
  }
}
