/**
 * Posting the one summary comment that all runs of a pull request share
 * (apps/dashboard/src/lib/github-pr-comment.ts over postWithWriteMutex of
 * apps/dashboard/src/lib/github-surface-post.ts). The claim column is a write mutex with a time to live, and
 * the recorded run id keeps an older run from overwriting a newer one. Any number of processes run the
 * sequence concurrently, may stall between any two steps (also between reading the clock and the claim
 * that writes the reading), and may crash; every UPDATE is one atomic step and the clock never goes back.
 */
module CommentMutex {
  import opened Prelude
  import opened Text
  import opened Lease
  import L = Lease

  const PR_COMMENT_MUTEX_ATTEMPTS: nat := 4

  datatype Row = Row(commentId: Option<int>, runId: Option<string>, claimedAt: Option<int>)

  // ----- The guard and the three updates -----

  /** A writer gives way to a newer run, and to its own run unless that run was there at its first read. */
  predicate Skips(recorded: Option<string>, run: string, initial: Option<string>) {
    recorded.Some? && (TextLess(run, recorded.value) || (recorded.value == run && initial != Some(run)))
  }

  function Released(row: Row, claim: int): Row {
    row.(claimedAt := Cleared(row.claimedAt, claim))
  }

  function Persisted(row: Row, id: int, run: string, claim: int): Row {
    if row.claimedAt == Some(claim) then Row(Some(id), Some(run), None) else row
  }

  class CommentRow {
    var commentId: Option<int>
    var runId: Option<string>
    var claimedAt: Option<int>

    function State(): Row
      reads this
    {
      Row(commentId, runId, claimedAt)
    }

    method ClaimPrCommentSlot(nowSeconds: int) returns (claim: Option<int>)
      modifies this
      ensures claim.Some? <==> Claimable(old(claimedAt), nowSeconds)
      ensures claim.Some? <==> old(claimedAt).None? || old(claimedAt).value + CLAIM_TTL_SECONDS < nowSeconds
      ensures claim.Some? ==> claim.value == nowSeconds && State() == old(State()).(claimedAt := claim)
      ensures claim.None? ==> State() == old(State())
    {
      if claimedAt == None || claimedAt.value < nowSeconds - CLAIM_TTL_SECONDS {
        claimedAt := Some(nowSeconds);
        return Some(nowSeconds);
      }
      return None;
    }

    method Release(claim: int)
      modifies this
      ensures State() == Released(old(State()), claim)
      ensures commentId == old(commentId) && runId == old(runId)
      ensures claimedAt == if old(claimedAt) == Some(claim) then None else old(claimedAt)
    {
      if claimedAt == Some(claim) { claimedAt := None; }
    }

    method Persist(id: int, run: string, claim: int)
      modifies this
      ensures State() == Persisted(old(State()), id, run, claim)
      ensures State() == if old(claimedAt) == Some(claim) then Row(Some(id), Some(run), None) else old(State())
    {
      if claimedAt == Some(claim) {
        commentId, runId, claimedAt := Some(id), Some(run), None;
      }
    }
  }

  // ----- The protocol -----

  datatype Phase =
    | Idle
    | Reading(run: string, attempt: nat, first: Option<Option<string>>)    // `first` is set by the first read
    | Ready(run: string, attempt: nat, initial: Option<string>)            // the guard let it through
    | Claiming(run: string, attempt: nat, initial: Option<string>, now: int)   // the claim is on its way
    | Rechecking(run: string, initial: Option<string>)
    | Posting(run: string, initial: Option<string>, existingId: Option<int>, landed: bool)
    | Posted(run: string, initial: Option<string>, id: int)
    | Releasing
    | Done

  /** How a request ends here. Whether the comment changed at GitHub is decided before, by the `Lands` step. */
  datatype Outcome = Wrote(id: int) | NoId | Failed

  /** A body that reached GitHub; `refresh` if its run was already recorded when the writer first read. */
  datatype Body = Body(run: string, refresh: bool)

  datatype World = World(
    row: Row,
    clock: int,
    phases: map<Process, Phase>,
    tokens: map<Process, int>,
    bodies: seq<Body>,            // in the order in which they landed
    adrift: map<Process, Body>)   // what may still reach GitHub though nobody waits for it any more

  datatype Event =
    | Tick(seconds: nat)
    | Start(p: Process, run: string)
    | Read(p: Process)
    | ReadClock(p: Process)
    | Claim(p: Process)
    | Recheck(p: Process)
    | Lands(p: Process)
    | Straggles(p: Process)
    | PostEnds(p: Process, outcome: Outcome)
    | Persist(p: Process)
    | Release(p: Process)
    | Crash(p: Process)

  function PhaseOf(w: World, p: Process): Phase {
    if p in w.phases then w.phases[p] else Idle
  }

  function Token(w: World, p: Process): Option<int> {
    if p in w.tokens then Some(w.tokens[p]) else None
  }

  function Goto(w: World, p: Process, phase: Phase): World {
    w.(phases := w.phases[p := phase])
  }

  function Finish(w: World, p: Process): World {
    Goto(w, p, Done).(tokens := w.tokens - {p})
  }

  function BodyOf(phase: Phase): Body
    requires phase.Posting?
  {
    Body(phase.run, phase.initial == Some(phase.run))
  }

  /** Nobody waits any more for a request of `p` that has not landed. */
  function Abandon(w: World, p: Process): World {
    if PhaseOf(w, p).Posting? && !PhaseOf(w, p).landed then w.(adrift := w.adrift[p := BodyOf(PhaseOf(w, p))]) else w
  }

  /** One step of one process, or of the clock; an event that does not fit the phase does nothing. */
  function Step(w: World, e: Event): World {
    match e
    case Tick(seconds) => w.(clock := w.clock + seconds)
    case Start(p, run) => if PhaseOf(w, p).Idle? then Goto(w, p, Reading(run, 0, None)) else w
    case Read(p) => if PhaseOf(w, p).Reading? then AfterRead(w, p) else w
    case ReadClock(p) =>
      if PhaseOf(w, p).Ready? then
        var Ready(run, attempt, initial) := PhaseOf(w, p);
        Goto(w, p, Claiming(run, attempt, initial, w.clock))
      else w
    case Claim(p) => if PhaseOf(w, p).Claiming? then AfterClaim(w, p) else w
    case Recheck(p) => if PhaseOf(w, p).Rechecking? then AfterRecheck(w, p) else w
    case Lands(p) =>
      if PhaseOf(w, p).Posting? && !PhaseOf(w, p).landed then
        Goto(w, p, PhaseOf(w, p).(landed := true)).(bodies := w.bodies + [BodyOf(PhaseOf(w, p))])
      else w
    case Straggles(p) =>
      if p in w.adrift then w.(bodies := w.bodies + [w.adrift[p]], adrift := w.adrift - {p}) else w
    case PostEnds(p, outcome) =>
      if !PhaseOf(w, p).Posting? || (!outcome.Failed? && !PhaseOf(w, p).landed) then w
      else if outcome.Wrote? then Goto(w, p, Posted(PhaseOf(w, p).run, PhaseOf(w, p).initial, outcome.id))
      else Goto(Abandon(w, p), p, Releasing)
    case Persist(p) =>
      if !PhaseOf(w, p).Posted? || p !in w.tokens then w
      else Finish(w, p).(row := Persisted(w.row, PhaseOf(w, p).id, PhaseOf(w, p).run, w.tokens[p]))
    case Release(p) =>
      if !PhaseOf(w, p).Releasing? || p !in w.tokens then w
      else Finish(w, p).(row := Released(w.row, w.tokens[p]))
    case Crash(p) => Finish(Abandon(w, p), p)
  }

  function AfterRead(w: World, p: Process): World
    requires PhaseOf(w, p).Reading?
  {
    var Reading(run, attempt, first) := PhaseOf(w, p);
    var initial := if first.None? then w.row.runId else first.value;
    if Skips(w.row.runId, run, initial) then Finish(w, p) else Goto(w, p, Ready(run, attempt, initial))
  }

  function AfterClaim(w: World, p: Process): World
    requires PhaseOf(w, p).Claiming?
  {
    var Claiming(run, attempt, initial, now) := PhaseOf(w, p);
    if Claimable(w.row.claimedAt, now) then
      Goto(w, p, Rechecking(run, initial)).(row := w.row.(claimedAt := Some(now)), tokens := w.tokens[p := now])
    else if attempt + 1 < PR_COMMENT_MUTEX_ATTEMPTS then Goto(w, p, Reading(run, attempt + 1, Some(initial)))
    else Finish(w, p)
  }

  function AfterRecheck(w: World, p: Process): World
    requires PhaseOf(w, p).Rechecking?
  {
    var Rechecking(run, initial) := PhaseOf(w, p);
    if Skips(w.row.runId, run, initial) then Goto(w, p, Releasing)
    else Goto(w, p, Posting(run, initial, w.row.commentId, false))
  }

  function Run(w: World, es: seq<Event>): World
    decreases |es|
  {
    if es == [] then w else Run(Step(w, es[0]), es[1..])
  }

  predicate Writing(phase: Phase) {
    phase.Posting? || phase.Posted?
  }

  /** A process holds a claim from its claim to its last write, and no clock reading lies in the future. */
  predicate PhaseOk(w: World, p: Process) {
    var phase := PhaseOf(w, p);
    && (p in w.tokens <==> phase.Rechecking? || Writing(phase) || phase.Releasing?)
    && (phase.Claiming? ==> phase.now <= w.clock)
  }

  /** What every step keeps, however long anybody stalls. */
  ghost predicate Base(w: World) {
    forall p: Process :: PhaseOk(w, p)
  }

  /** A comment nobody is writing, perhaps with a claim that a crashed writer left. */
  predicate Quiet(w: World) {
    && w.phases == map[] && w.tokens == map[] && w.bodies == [] && w.adrift == map[]
    && (w.row.claimedAt.Some? ==> w.row.claimedAt.value <= w.clock)
  }

  /** What a step leaves alone. */
  lemma StepFrame(w: World, e: Event, q: Process)
    ensures e.Tick? || e.p != q ==> PhaseOf(Step(w, e), q) == PhaseOf(w, q) && Token(Step(w, e), q) == Token(w, q)
    ensures w.clock <= Step(w, e).clock
  {
    hide Skips, Claimable, Released, Persisted;
  }

  lemma OwnPhaseKept(w: World, e: Event)
    requires Base(w) && !e.Tick?
    ensures PhaseOk(Step(w, e), e.p)
  {
    hide Skips, Claimable, Released, Persisted;
    assert PhaseOk(w, e.p);
  }

  lemma StepKeeps(w: World, e: Event)
    requires Base(w)
    ensures Base(Step(w, e))
  {
    hide Step;
    forall q: Process ensures PhaseOk(Step(w, e), q) {
      assert PhaseOk(w, q);
      StepFrame(w, e, q);
      if !e.Tick? && e.p == q {
        OwnPhaseKept(w, e);
      }
    }
  }

  // ----- The claim column as a lease -----

  function LeaseOf(w: World): Lease {
    Lease(w.row.claimedAt, w.clock, w.tokens)
  }

  /** What a step does to the lease. */
  function ActOf(w: World, e: Event): Act {
    match e
    case Tick(seconds) => Wait(seconds)
    case Claim(p) =>
      if PhaseOf(w, p).Claiming? && Claimable(w.row.claimedAt, PhaseOf(w, p).now) then Take(p, PhaseOf(w, p).now)
      else Stutter
    case Persist(p) => if PhaseOf(w, p).Posted? && p in w.tokens then Clear(p) else Stutter
    case Release(p) => if PhaseOf(w, p).Releasing? && p in w.tokens then Clear(p) else Stutter
    case Crash(p) => Drop(p)
    case _ => Stutter
  }

  lemma StepRefines(w: World, e: Event)
    requires Base(w)
    ensures Legal(LeaseOf(w), ActOf(w, e)) && Apply(LeaseOf(w), ActOf(w, e)) == LeaseOf(Step(w, e))
  {
    hide Skips;
    if !e.Tick? {
      assert PhaseOk(w, e.p);
      assert e.p !in w.tokens ==> w.tokens - {e.p} == w.tokens;
    }
  }

  function Acts(w: World, es: seq<Event>): seq<Act>
    decreases |es|
  {
    if es == [] then [] else [ActOf(w, es[0])] + Acts(Step(w, es[0]), es[1..])
  }

  /** Every run of the protocol is a run of the lease. */
  lemma {:induction false} RunRefines(w: World, es: seq<Event>)
    requires Base(w)
    ensures Base(Run(w, es))
    ensures LegalRun(LeaseOf(w), Acts(w, es)) && ApplyAll(LeaseOf(w), Acts(w, es)) == LeaseOf(Run(w, es))
    decreases |es|
  {
    if es != [] {
      StepKeeps(w, es[0]);
      StepRefines(w, es[0]);
      hide Base, Step, ActOf, LeaseOf, Legal, Apply;
      RunRefines(Step(w, es[0]), es[1..]);
    }
  }

  /** Every claim of the run lands at most `delay` seconds after its clock reading. */
  ghost predicate AllPrompt(w: World, es: seq<Event>, delay: int) {
    Base(w) && (RunRefines(w, es); L.AllPrompt(LeaseOf(w), Acts(w, es), delay))
  }

  /** No holder ever takes more than `limit` seconds from its clock reading on. */
  ghost predicate Timely(w: World, es: seq<Event>, limit: int) {
    Base(w) && (RunRefines(w, es); L.Timely(LeaseOf(w), Acts(w, es), limit))
  }

  // ----- What is recorded -----

  /** `run` is newer than what the row records. */
  predicate Newer(run: string, recorded: Option<string>) {
    recorded.None? || TextLess(recorded.value, run)
  }

  predicate Landed(phase: Phase) {
    phase.Posted? || (phase.Posting? && phase.landed)
  }

  /** A body of `p` is at GitHub that is newer than what the row records. */
  predicate Unrecorded(w: World, p: Process) {
    p in w.tokens && Landed(PhaseOf(w, p)) && Newer(PhaseOf(w, p).run, w.row.runId)
  }

  /** A late body refreshes what GitHub shows, or is newer than that without being newer than the record. */
  predicate Harmless(bodies: seq<Body>, recorded: Option<string>, late: Body) {
    if bodies != [] && bodies[|bodies| - 1].run == late.run then late.refresh
    else (bodies != [] ==> TextLess(bodies[|bodies| - 1].run, late.run)) && !Newer(late.run, recorded)
  }

  /**
   * A writer whose newer body landed goes on to record it: it neither crashes first nor loses the response. And
   * of the requests that nobody waits for, only harmless ones land.
   */
  predicate Records(w: World, e: Event) {
    if e.Straggles? then e.p in w.adrift ==> Harmless(w.bodies, w.row.runId, w.adrift[e.p])
    else
      e.Crash? || (e.PostEnds? && PhaseOf(w, e.p).Posting? && !e.outcome.Wrote?) ==> !Unrecorded(w, e.p)
  }

  ghost predicate AlwaysRecords(w: World, es: seq<Event>)
    decreases |es|
  {
    es == [] || (Records(w, es[0]) && AlwaysRecords(Step(w, es[0]), es[1..]))
  }

  /** The step rules of a run, one step at a time. */
  lemma Cons(w: World, e: Event, es: seq<Event>, n: int)
    requires Base(w)
    ensures Base(Step(w, e)) && Run(w, [e] + es) == Run(Step(w, e), es)
    ensures AllPrompt(w, [e] + es, n) <==> Prompt(LeaseOf(w), ActOf(w, e), n) && AllPrompt(Step(w, e), es, n)
    ensures Timely(w, [e] + es, n) <==> InTime(LeaseOf(w), n) && Timely(Step(w, e), es, n)
    ensures AlwaysRecords(w, [e] + es) <==> Records(w, e) && AlwaysRecords(Step(w, e), es)
  {
    StepKeeps(w, e);
    StepRefines(w, e);
    RunRefines(w, [e] + es);
    RunRefines(Step(w, e), es);
    hide Base, Step, ActOf, LeaseOf, Legal, Apply, InTime, Prompt, Records;
    assert ([e] + es)[1..] == es;
    var acts := Acts(w, [e] + es);
    assert acts[0] == ActOf(w, e) && acts[1..] == Acts(Step(w, e), es);
  }

  lemma Nothing(w: World, n: int)
    requires Base(w)
    ensures Run(w, []) == w && AlwaysRecords(w, []) && (Timely(w, [], n) <==> InTime(LeaseOf(w), n))
    ensures AllPrompt(w, [], n)
  {
  }

  // ----- The recorded run, while claims are prompt -----

  /** While its claim is in the column, a writer's run is one that the guard lets through. */
  ghost predicate Guarded(w: World) {
    forall p: Process :: GuardOk(w, p)
  }

  predicate GuardOk(w: World, p: Process) {
    var phase := PhaseOf(w, p);
    Writing(phase) && w.row.claimedAt == Token(w, p) && p in w.tokens ==> !Skips(w.row.runId, phase.run, phase.initial)
  }

  /** All that is known while claims are prompt. */
  ghost predicate Inv(w: World) {
    Base(w) && Leased(LeaseOf(w)) && Guarded(w)
  }

  lemma QuietInv(w: World)
    requires Quiet(w)
    ensures Inv(w) && InTime(LeaseOf(w), 0)
  {
  }

  /** Whoever holds the claim after another's step held it before, and nothing was recorded meanwhile. */
  lemma OtherStillHolds(w: World, e: Event, q: Process)
    requires Base(w) && Leased(LeaseOf(w)) && Leased(LeaseOf(Step(w, e))) && q in w.tokens && (e.Tick? || e.p != q)
    ensures Step(w, e).row.claimedAt == Some(w.tokens[q]) ==>
              w.row.claimedAt == Some(w.tokens[q]) && Step(w, e).row.runId == w.row.runId
  {
    hide Skips;
    var v := Step(w, e);
    StepFrame(w, e, q);
    assert q in v.tokens && v.tokens[q] == w.tokens[q];
    if !e.Tick? {
      assert PhaseOk(w, e.p);
      if e.Claim? && v.row != w.row {
        assert v.row.claimedAt == Some(v.tokens[e.p]);
      }
    }
  }

  lemma OwnGuardKept(w: World, e: Event)
    requires Inv(w) && !e.Tick?
    ensures GuardOk(Step(w, e), e.p)
  {
    hide Skips, Claimable, Leased;
    assert PhaseOk(w, e.p) && GuardOk(w, e.p);
  }

  lemma InvKept(w: World, e: Event)
    requires Inv(w) && Prompt(LeaseOf(w), ActOf(w, e), CLAIM_TTL_SECONDS)
    ensures Inv(Step(w, e))
  {
    StepKeeps(w, e);
    StepRefines(w, e);
    ApplyKeeps(LeaseOf(w), ActOf(w, e));
    hide Skips, Step, Leased, ActOf, PhaseOk;
    forall q: Process ensures GuardOk(Step(w, e), q) {
      StepFrame(w, e, q);
      if !e.Tick? && e.p == q {
        OwnGuardKept(w, e);
      } else if q in w.tokens {
        assert GuardOk(w, q);
        OtherStillHolds(w, e, q);
      }
    }
  }

  /** Neither a write nor a release under this token would change the row. */
  ghost predicate Powerless(row: Row, token: int) {
    Released(row, token) == row && forall id: int, run: string :: Persisted(row, id, run, token) == row
  }

  lemma PowerlessIff(row: Row, token: int)
    ensures Powerless(row, token) <==> row.claimedAt != Some(token)
  {
    if row.claimedAt == Some(token) {
      assert Released(row, token) != row;
    }
  }

  /** Once a writer's claim was taken over, its write and its release change nothing if claims are prompt. */
  lemma SupersededIsHarmless(w: World, es: seq<Event>, p: Process)
    requires Leased(LeaseOf(w)) && Superseded(LeaseOf(w), p) && AllPrompt(w, es, CLAIM_TTL_SECONDS)
    ensures Powerless(Run(w, es).row, w.tokens[p])
  {
    RunRefines(w, es);
    SupersededStays(LeaseOf(w), Acts(w, es), p);
    PowerlessIff(Run(w, es).row, w.tokens[p]);
  }

  /** `b` is at least as new as `a`. */
  predicate NotOlder(a: Option<string>, b: Option<string>) {
    a.Some? ==> b.Some? && !TextLess(b.value, a.value)
  }

  lemma NotOlderTransitive(a: Option<string>, b: Option<string>, c: Option<string>)
    requires NotOlder(a, b) && NotOlder(b, c)
    ensures NotOlder(a, c)
  {
    if a.Some? {
      TextOrder(a.value, b.value, c.value);
      TextOrder(a.value, c.value, b.value);
      TextOrder(c.value, b.value, a.value);
    }
  }

  /** The guard lets through only runs that are not older than the recorded one. */
  lemma GuardNotOlder(recorded: Option<string>, run: string, initial: Option<string>)
    requires !Skips(recorded, run, initial)
    ensures NotOlder(recorded, Some(run))
    ensures recorded.Some? ==> TextLess(recorded.value, run) || (recorded.value == run && initial == Some(run))
  {
    if recorded.Some? {
      TextOrder(recorded.value, run, run);
    }
  }

  lemma StepRecords(w: World, e: Event)
    requires Inv(w)
    ensures NotOlder(w.row.runId, Step(w, e).row.runId)
  {
    hide TextLess, Leased;
    if w.row.runId.Some? {
      TextOrder(w.row.runId.value, "", "");
    }
    if e.Persist? && PhaseOf(w, e.p).Posted? && e.p in w.tokens && w.row.claimedAt == Some(w.tokens[e.p]) {
      assert GuardOk(w, e.p);
      GuardNotOlder(w.row.runId, PhaseOf(w, e.p).run, PhaseOf(w, e.p).initial);
    }
  }

  lemma PromptHead(w: World, es: seq<Event>, delay: int)
    requires es != [] && AllPrompt(w, es, delay)
    ensures Prompt(LeaseOf(w), ActOf(w, es[0]), delay) && AllPrompt(Step(w, es[0]), es[1..], delay)
  {
    hide AllPrompt, Base, Step, LeaseOf, ActOf, Prompt;
    assert [es[0]] + es[1..] == es;
    assert Base(w) by { PromptBase(w, es, delay); }
    Cons(w, es[0], es[1..], delay);
  }

  lemma PromptBase(w: World, es: seq<Event>, delay: int)
    requires AllPrompt(w, es, delay)
    ensures Base(w)
  {
  }

  /** While claims are prompt the recorded run is never replaced by an older one, whatever stalls or crashes. */
  lemma {:induction false} RecordedRunNeverAges(w: World, es: seq<Event>)
    requires Inv(w) && AllPrompt(w, es, CLAIM_TTL_SECONDS)
    ensures Inv(Run(w, es)) && NotOlder(w.row.runId, Run(w, es).row.runId)
    decreases |es|
  {
    if es == [] {
      if w.row.runId.Some? {
        TextOrder(w.row.runId.value, "", "");
      }
    } else {
      var v := Step(w, es[0]);
      PromptHead(w, es, CLAIM_TTL_SECONDS);
      InvKept(w, es[0]);
      StepRecords(w, es[0]);
      hide Inv, Step, AllPrompt, Prompt;
      RecordedRunNeverAges(v, es[1..]);
      NotOlderTransitive(w.row.runId, v.row.runId, Run(v, es[1..]).row.runId);
    }
  }

  /** Holders that finish in time exclude each other. */
  lemma HoldersExclude(w: World, es: seq<Event>)
    requires Leased(LeaseOf(w)) && Timely(w, es, CLAIM_TTL_SECONDS)
    ensures Alone(Run(w, es).tokens)
  {
    RunRefines(w, es);
    L.HoldersExclude(LeaseOf(w), Acts(w, es));
  }

  // ----- The order in which bodies land at GitHub -----

  /** Each body is of a newer run than those before it, or deliberately refreshes the same run's. */
  predicate Ordered(bodies: seq<Body>) {
    forall i, j :: 0 <= i < j < |bodies| ==>
      TextLess(bodies[i].run, bodies[j].run) || (bodies[i].run == bodies[j].run && bodies[j].refresh)
  }

  predicate UpTo(bodies: seq<Body>, run: Option<string>) {
    forall b :: b in bodies ==> NotOlder(Some(b.run), run)
  }

  /** GitHub shows nothing newer than what the row records or a writer goes on to record. */
  ghost predicate Covered(w: World) {
    UpTo(w.bodies, w.row.runId) || exists p :: Unrecorded(w, p) && UpTo(w.bodies, Some(PhaseOf(w, p).run))
  }

  ghost predicate Sound(w: World) {
    Ordered(w.bodies) && Covered(w)
  }

  /** Whoever has landed has a body of its run at GitHub. */
  ghost predicate Shown(w: World) {
    forall p :: Landed(PhaseOf(w, p)) ==> exists b :: b in w.bodies && b.run == PhaseOf(w, p).run
  }

  /** All that is known while holders are in time. */
  ghost predicate InvInTime(w: World) {
    Inv(w) && InTime(LeaseOf(w), CLAIM_TTL_SECONDS) && Shown(w)
  }

  lemma UpToNewer(bodies: seq<Body>, a: Option<string>, b: Option<string>)
    requires UpTo(bodies, a) && NotOlder(a, b)
    ensures UpTo(bodies, b)
  {
    forall x | x in bodies ensures NotOlder(Some(x.run), b) {
      NotOlderTransitive(Some(x.run), a, b);
    }
  }

  /** A body let through by the guard, when everything at GitHub is recorded, keeps the order. */
  lemma LandsInOrder(bodies: seq<Body>, recorded: Option<string>, run: string, initial: Option<string>)
    requires Ordered(bodies) && UpTo(bodies, recorded) && !Skips(recorded, run, initial)
    ensures Ordered(bodies + [Body(run, initial == Some(run))])
    ensures UpTo(bodies + [Body(run, initial == Some(run))], Some(run))
    ensures Newer(run, recorded) || recorded == Some(run)
  {
    GuardNotOlder(recorded, run, initial);
    UpToNewer(bodies, recorded, Some(run));
    forall i | 0 <= i < |bodies|
      ensures TextLess(bodies[i].run, run) || (bodies[i].run == run && initial == Some(run))
    {
      assert bodies[i] in bodies;
      TextOrder(bodies[i].run, recorded.value, run);
      TextOrder(bodies[i].run, run, run);
    }
    TextOrder(run, "", "");
  }

  /** In time, whoever has the claim is the only one, and the guard stands for it. */
  lemma OneHolder(w: World, p: Process)
    requires InvInTime(w) && p in w.tokens
    ensures w.row.claimedAt == Some(w.tokens[p]) && forall q :: q in w.tokens ==> q == p
    ensures Writing(PhaseOf(w, p)) ==> !Skips(w.row.runId, PhaseOf(w, p).run, PhaseOf(w, p).initial)
  {
    Exclusive(LeaseOf(w));
    assert GuardOk(w, p);
  }

  lemma InTimeKept(w: World, e: Event)
    requires InvInTime(w) && InTime(LeaseOf(Step(w, e)), CLAIM_TTL_SECONDS)
    ensures InvInTime(Step(w, e))
  {
    StepRefines(w, e);
    var l, a := LeaseOf(w), ActOf(w, e);
    assert a.Take? ==> a.p in Apply(l, a).tokens;
    InvKept(w, e);
    ShownKept(w, e);
  }

  lemma ShownKept(w: World, e: Event)
    requires Shown(w)
    ensures Shown(Step(w, e))
  {
    var v := Step(w, e);
    BodiesGrow(w, e);
    forall q | Landed(PhaseOf(v, q)) ensures exists b :: b in v.bodies && b.run == PhaseOf(v, q).run {
      StepLands(w, e, q);
      if Landed(PhaseOf(w, q)) && PhaseOf(v, q).run == PhaseOf(w, q).run {
        var b :| b in w.bodies && b.run == PhaseOf(w, q).run;
        assert b in v.bodies;
      }
    }
  }

  lemma BodiesGrow(w: World, e: Event)
    ensures forall b :: b in w.bodies ==> b in Step(w, e).bodies
  {
    hide Skips, Claimable, Released, Persisted;
  }

  /** A process has landed after a step if it had before, or if its body has just been added. */
  lemma StepLands(w: World, e: Event, q: Process)
    ensures var v := Step(w, e);
            Landed(PhaseOf(v, q)) ==>
              || (Landed(PhaseOf(w, q)) && PhaseOf(v, q).run == PhaseOf(w, q).run)
              || exists b :: b in v.bodies && b.run == PhaseOf(v, q).run
  {
    hide Skips, Claimable, Released, Persisted;
    StepFrame(w, e, q);
    if e.Lands? && e.p == q && PhaseOf(w, q).Posting? && !PhaseOf(w, q).landed {
      assert BodyOf(PhaseOf(w, q)) in Step(w, e).bodies;
    }
  }

  lemma BaseAt(w: World, p: Process)
    requires Inv(w)
    ensures PhaseOk(w, p)
  {
  }

  lemma StepSound(w: World, e: Event)
    requires InvInTime(w) && Sound(w) && Records(w, e)
    ensures Sound(Step(w, e))
  {
    if e.Lands? && Step(w, e).bodies != w.bodies {
      LandingSound(w, e.p);
    } else if e.Straggles? && e.p in w.adrift {
      StragglerSound(w, e.p);
    } else if e.Persist? && Step(w, e).row != w.row {
      PersistSound(w, e.p);
    } else {
      OtherSound(w, e);
    }
  }

  lemma LastIsNewest(bodies: seq<Body>, b: Body)
    requires Ordered(bodies) && b in bodies
    ensures bodies != [] && !TextLess(bodies[|bodies| - 1].run, b.run)
  {
    var i :| 0 <= i < |bodies| && bodies[i] == b;
    var last := bodies[|bodies| - 1];
    TextOrder(b.run, last.run, b.run);
  }

  /** Appending keeps the order exactly if the last body is older, or of the same run and refreshed. */
  lemma OrderedSnoc(bodies: seq<Body>, late: Body)
    requires Ordered(bodies) && bodies != []
    ensures var last := bodies[|bodies| - 1];
            Ordered(bodies + [late]) <==> TextLess(last.run, late.run) || (last.run == late.run && late.refresh)
  {
    var all, n := bodies + [late], |bodies|;
    var last := bodies[n - 1];
    assert all[n - 1] == last && all[n] == late;
    if TextLess(last.run, late.run) || (last.run == late.run && late.refresh) {
      forall i | 0 <= i < n
        ensures TextLess(bodies[i].run, late.run) || (bodies[i].run == late.run && late.refresh)
      {
        TextOrder(bodies[i].run, last.run, late.run);
      }
    }
  }

  lemma UpToSnoc(bodies: seq<Body>, late: Body, run: Option<string>)
    ensures UpTo(bodies + [late], run) <==> UpTo(bodies, run) && NotOlder(Some(late.run), run)
  {
    assert late in bodies + [late];
    forall b | b in bodies ensures b in bodies + [late] {}
  }

  lemma NewerIsNotUpTo(run: string, recorded: Option<string>)
    ensures Newer(run, recorded) <==> !NotOlder(Some(run), recorded)
  {
  }

  /** A harmless straggler leaves GitHub ordered and covered. */
  lemma StragglerSound(w: World, p: Process)
    requires Sound(w) && p in w.adrift && Harmless(w.bodies, w.row.runId, w.adrift[p])
    ensures Sound(Step(w, Straggles(p)))
  {
    var v, late := Step(w, Straggles(p)), w.adrift[p];
    hide Skips;
    if w.bodies != [] {
      OrderedSnoc(w.bodies, late);
    }
    NewerIsNotUpTo(late.run, w.row.runId);
    if UpTo(w.bodies, w.row.runId) {
      UpToSnoc(w.bodies, late, w.row.runId);
      if w.bodies != [] && w.bodies[|w.bodies| - 1].run == late.run {
        assert w.bodies[|w.bodies| - 1] in w.bodies;
      }
    } else {
      var q :| Unrecorded(w, q) && UpTo(w.bodies, Some(PhaseOf(w, q).run));
      var run := PhaseOf(w, q).run;
      UpToSnoc(w.bodies, late, Some(run));
      if w.bodies != [] && w.bodies[|w.bodies| - 1].run == late.run {
        assert w.bodies[|w.bodies| - 1] in w.bodies;
      } else {
        NewerIsNotUpTo(run, w.row.runId);
        if w.row.runId.Some? {
          TextOrder(w.row.runId.value, run, late.run);
          NotOlderTransitive(Some(late.run), w.row.runId, Some(run));
        }
      }
      assert Unrecorded(v, q);
    }
  }

  lemma LandingSound(w: World, p: Process)
    requires InvInTime(w) && Sound(w) && PhaseOf(w, p).Posting? && !PhaseOf(w, p).landed
    ensures Sound(Step(w, Lands(p)))
  {
    hide Ordered, UpTo, TextLess, Skips, NotOlder, Leased;
    BaseAt(w, p);
    OneHolder(w, p);
    assert UpTo(w.bodies, w.row.runId);
    var phase := PhaseOf(w, p);
    LandsInOrder(w.bodies, w.row.runId, phase.run, phase.initial);
    assert Newer(phase.run, w.row.runId) ==> Unrecorded(Step(w, Lands(p)), p);
  }

  lemma PersistSound(w: World, p: Process)
    requires InvInTime(w) && Sound(w) && PhaseOf(w, p).Posted? && p in w.tokens
    ensures Sound(Step(w, Persist(p)))
  {
    hide Ordered, UpTo, TextLess, Skips, NotOlder, Leased;
    OneHolder(w, p);
    var phase := PhaseOf(w, p);
    GuardNotOlder(w.row.runId, phase.run, phase.initial);
    if UpTo(w.bodies, w.row.runId) {
      UpToNewer(w.bodies, w.row.runId, Some(phase.run));
    }
  }

  lemma OtherSound(w: World, e: Event)
    requires InvInTime(w) && Sound(w) && Records(w, e)
    requires Step(w, e).bodies == w.bodies && (e.Persist? ==> Step(w, e).row == w.row)
    requires e.Straggles? ==> e.p !in w.adrift
    ensures Sound(Step(w, e))
  {
    hide Ordered, UpTo, TextLess, Skips, NotOlder, Leased;
    assert Step(w, e).row.runId == w.row.runId;
    if !e.Tick? {
      BaseAt(w, e.p);
    }
    if !UpTo(w.bodies, w.row.runId) {
      var p :| Unrecorded(w, p) && UpTo(w.bodies, Some(PhaseOf(w, p).run));
      OneHolder(w, p);
      BaseAt(w, p);
      StepFrame(w, e, p);
      assert Unrecorded(Step(w, e), p) && PhaseOf(Step(w, e), p).run == PhaseOf(w, p).run;
    }
  }

  /** A newer body whose writer goes without recording it leaves GitHub ahead of the row. */
  lemma StepUnsound(w: World, e: Event)
    requires InvInTime(w) && Sound(w) && !Records(w, e)
    ensures !Sound(Step(w, e))
  {
    if e.Straggles? {
      StragglerUnsound(w, e.p);
    } else {
      LossUnsound(w, e);
    }
  }

  lemma LossUnsound(w: World, e: Event)
    requires InvInTime(w) && !e.Straggles? && !Records(w, e)
    ensures !Covered(Step(w, e))
  {
    hide Skips, Leased;
    OneHolder(w, e.p);
    BaseAt(w, e.p);
    var b :| b in w.bodies && b.run == PhaseOf(w, e.p).run;
    NewerIsNotUpTo(b.run, w.row.runId);
    forall q ensures !Unrecorded(Step(w, e), q) {
      StepFrame(w, e, q);
    }
  }

  /** A straggler that is not harmless breaks the order, or leaves GitHub ahead of all who would record it. */
  lemma StragglerUnsound(w: World, p: Process)
    requires Sound(w) && Shown(w) && p in w.adrift && !Harmless(w.bodies, w.row.runId, w.adrift[p])
    ensures !Sound(Step(w, Straggles(p)))
  {
    hide Skips;
    var v, late := Step(w, Straggles(p)), w.adrift[p];
    if w.bodies != [] {
      OrderedSnoc(w.bodies, late);
    }
    TextOrder(late.run, "", "");
    if Ordered(v.bodies) {
      assert v.bodies == w.bodies + [late];
      NewerIsNotUpTo(late.run, w.row.runId);
      UpToSnoc(w.bodies, late, w.row.runId);
      forall q | Unrecorded(v, q) ensures !UpTo(v.bodies, Some(PhaseOf(v, q).run)) {
        assert Landed(PhaseOf(w, q)) && PhaseOf(v, q) == PhaseOf(w, q);
        var b :| b in w.bodies && b.run == PhaseOf(w, q).run;
        LastIsNewest(w.bodies, b);
        UpToSnoc(w.bodies, late, Some(b.run));
        TextOrder(b.run, w.bodies[|w.bodies| - 1].run, late.run);
      }
    }
  }

  lemma TimelyNow(w: World, es: seq<Event>, limit: int)
    requires Timely(w, es, limit)
    ensures Base(w) && InTime(LeaseOf(w), limit)
  {
    RunRefines(w, es);
    hide Base, LeaseOf, Acts, InTime;
  }

  lemma TimelyHead(w: World, es: seq<Event>, limit: int)
    requires es != [] && Timely(w, es, limit)
    ensures Timely(Step(w, es[0]), es[1..], limit) && InTime(LeaseOf(Step(w, es[0])), limit)
  {
    TimelyNow(w, es, limit);
    hide Timely, Base, Step, LeaseOf, InTime;
    assert [es[0]] + es[1..] == es;
    Cons(w, es[0], es[1..], limit);
    TimelyNow(Step(w, es[0]), es[1..], limit);
  }

  lemma InTimeHead(w: World, es: seq<Event>)
    requires es != [] && Timely(w, es, CLAIM_TTL_SECONDS) && InvInTime(w)
    ensures InvInTime(Step(w, es[0])) && Timely(Step(w, es[0]), es[1..], CLAIM_TTL_SECONDS)
  {
    TimelyHead(w, es, CLAIM_TTL_SECONDS);
    InTimeKept(w, es[0]);
  }

  /** If every newer body is recorded in time, bodies land at GitHub in the order of their runs. */
  lemma {:induction false} BodiesLandInOrder(w: World, es: seq<Event>)
    requires InvInTime(w) && Sound(w) && Timely(w, es, CLAIM_TTL_SECONDS) && AlwaysRecords(w, es)
    ensures InvInTime(Run(w, es)) && Sound(Run(w, es)) && Ordered(Run(w, es).bodies)
    decreases |es|
  {
    if es != [] {
      InTimeHead(w, es);
      StepSound(w, es[0]);
      hide InvInTime, Step, Sound, Timely, Records;
      BodiesLandInOrder(Step(w, es[0]), es[1..]);
    }
  }

  lemma QuietSound(w: World)
    requires Quiet(w)
    ensures InvInTime(w) && Sound(w)
  {
    QuietInv(w);
  }

  lemma NeverOlderAtGithub(w: World, es: seq<Event>)
    requires Quiet(w) && Timely(w, es, CLAIM_TTL_SECONDS) && AlwaysRecords(w, es)
    ensures Ordered(Run(w, es).bodies)
  {
    QuietSound(w);
    BodiesLandInOrder(w, es);
  }

  /** In such a run no writer with a request on its way is older than anything GitHub shows. */
  lemma NobodyExposed(w: World, es: seq<Event>, p: Process)
    requires Quiet(w) && Timely(w, es, CLAIM_TTL_SECONDS) && AlwaysRecords(w, es)
    requires PhaseOf(Run(w, es), p).Posting? && !PhaseOf(Run(w, es), p).landed
    ensures UpTo(Run(w, es).bodies, Some(PhaseOf(Run(w, es), p).run))
  {
    QuietSound(w);
    BodiesLandInOrder(w, es);
    hide Run, Ordered, UpTo, TextLess, Skips, NotOlder, Leased;
    var v := Run(w, es);
    BaseAt(v, p);
    OneHolder(v, p);
    assert UpTo(v.bodies, v.row.runId);
    GuardNotOlder(v.row.runId, PhaseOf(v, p).run, PhaseOf(v, p).initial);
    UpToNewer(v.bodies, v.row.runId, Some(PhaseOf(v, p).run));
  }

  // ----- Why each condition is needed -----

  /** The body of `run` lands, through a writer that nobody has heard of. */
  function Attempt(p: Process, run: string): seq<Event> {
    [Start(p, run), Read(p), ReadClock(p), Claim(p), Recheck(p), Lands(p)]
  }

  function Attempted(w: World, p: Process, run: string): World {
    w.(row := w.row.(claimedAt := Some(w.clock)), tokens := w.tokens[p := w.clock],
       phases := w.phases[p := Posting(run, w.row.runId, w.row.commentId, true)],
       bodies := w.bodies + [Body(run, w.row.runId == Some(run))])
  }

  /** From the start to the reading of the clock. */
  lemma Enters(w: World, p: Process, run: string, es: seq<Event>, n: int)
    requires Base(w) && PhaseOf(w, p).Idle? && !Skips(w.row.runId, run, w.row.runId)
    ensures var v := w.(phases := w.phases[p := Claiming(run, 0, w.row.runId, w.clock)]);
            var all := [Start(p, run)] + ([Read(p)] + ([ReadClock(p)] + es));
            && Base(v) && Run(w, all) == Run(v, es)
            && (AllPrompt(v, es, n) ==> AllPrompt(w, all, n))
            && (InTime(LeaseOf(w), n) && Timely(v, es, n) ==> Timely(w, all, n))
            && (AlwaysRecords(v, es) ==> AlwaysRecords(w, all))
  {
    hide Run, Timely, AllPrompt, AlwaysRecords, Base, Skips;
    var started := Step(w, Start(p, run));
    var read := Step(started, Read(p));
    var v := w.(phases := w.phases[p := Claiming(run, 0, w.row.runId, w.clock)]);
    assert Step(read, ReadClock(p)) == v;
    Cons(w, Start(p, run), [Read(p)] + ([ReadClock(p)] + es), n);
    Cons(started, Read(p), [ReadClock(p)] + es, n);
    Cons(read, ReadClock(p), es, n);
  }

  /** From the claim, if it is granted, to the body's landing. */
  lemma Writes(w: World, p: Process, es: seq<Event>, n: int)
    requires Base(w) && PhaseOf(w, p).Claiming? && Claimable(w.row.claimedAt, PhaseOf(w, p).now)
    requires !Skips(w.row.runId, PhaseOf(w, p).run, PhaseOf(w, p).initial)
    requires w.clock <= PhaseOf(w, p).now + n
    ensures var Claiming(run, _, initial, now) := PhaseOf(w, p);
            var v := w.(row := w.row.(claimedAt := Some(now)), tokens := w.tokens[p := now],
                        phases := w.phases[p := Posting(run, initial, w.row.commentId, true)],
                        bodies := w.bodies + [Body(run, initial == Some(run))]);
            var all := [Claim(p)] + ([Recheck(p)] + ([Lands(p)] + es));
            && Base(v) && Run(w, all) == Run(v, es)
            && (AllPrompt(v, es, n) ==> AllPrompt(w, all, n))
            && (InTime(LeaseOf(w), n) && Timely(v, es, n) ==> Timely(w, all, n))
            && (AlwaysRecords(v, es) ==> AlwaysRecords(w, all))
  {
    hide Run, Timely, AllPrompt, AlwaysRecords, Base, Skips;
    var Claiming(run, _, initial, now) := PhaseOf(w, p);
    var claimed := Step(w, Claim(p));
    assert claimed == w.(row := w.row.(claimedAt := Some(now)), tokens := w.tokens[p := now],
                         phases := w.phases[p := Rechecking(run, initial)]);
    var ready := Step(claimed, Recheck(p));
    var landed := Step(ready, Lands(p));
    assert landed.phases == w.phases[p := Posting(run, initial, w.row.commentId, true)];
    Cons(w, Claim(p), [Recheck(p)] + ([Lands(p)] + es), n);
    Cons(claimed, Recheck(p), [Lands(p)] + es, n);
    Cons(ready, Lands(p), es, n);
    assert InTime(LeaseOf(w), n) ==> InTime(LeaseOf(claimed), n) && InTime(LeaseOf(ready), n);
  }

  lemma AttemptLands(w: World, p: Process, run: string, es: seq<Event>, n: nat)
    requires Base(w) && PhaseOf(w, p).Idle? && Claimable(w.row.claimedAt, w.clock)
    requires !Skips(w.row.runId, run, w.row.runId)
    ensures Base(Attempted(w, p, run)) && Run(w, Attempt(p, run) + es) == Run(Attempted(w, p, run), es)
    ensures InTime(LeaseOf(w), n) && Timely(Attempted(w, p, run), es, n) ==> Timely(w, Attempt(p, run) + es, n)
    ensures AlwaysRecords(Attempted(w, p, run), es) ==> AlwaysRecords(w, Attempt(p, run) + es)
  {
    hide Run, Timely, AllPrompt, AlwaysRecords, Base, Skips;
    var v := w.(phases := w.phases[p := Claiming(run, 0, w.row.runId, w.clock)]);
    var rest := [Claim(p)] + ([Recheck(p)] + ([Lands(p)] + es));
    Enters(w, p, run, rest, n);
    Writes(v, p, es, n);
    assert Attempted(w, p, run).phases == v.phases[p := Posting(run, w.row.runId, w.row.commentId, true)];
    assert Attempt(p, run) + es == [Start(p, run)] + ([Read(p)] + ([ReadClock(p)] + rest));
    assert InTime(LeaseOf(w), n) ==> InTime(LeaseOf(v), n);
  }

  lemma NewerPasses(run: string, recorded: Option<string>)
    requires Newer(run, recorded)
    ensures !Skips(recorded, run, recorded) && recorded != Some(run)
  {
    if recorded.Some? {
      TextOrder(run, recorded.value, run);
    }
  }

  lemma NotUpTo(bodies: seq<Body>, recorded: Option<string>) returns (i: nat)
    requires !UpTo(bodies, recorded)
    ensures i < |bodies| && Newer(bodies[i].run, recorded)
  {
    var b :| b in bodies && !NotOlder(Some(b.run), recorded);
    i :| 0 <= i < |bodies| && bodies[i] == b;
  }

  lemma RepeatedBreaks(bodies: seq<Body>, i: nat, last: Body)
    requires i < |bodies| && last.run == bodies[i].run && !last.refresh
    ensures !Ordered(bodies + [last])
  {
    var all := bodies + [last];
    TextOrder(last.run, "", "");
    assert all[i] == bodies[i] && all[|bodies|] == last;
  }

  lemma UncoveredNotUpTo(w: World)
    requires !Covered(w)
    ensures !UpTo(w.bodies, w.row.runId)
  {
  }

  lemma ExpiryPast(w: World)
    requires InvInTime(w)
    ensures Base(w) && InTime(LeaseOf(w), CLAIM_TTL_SECONDS)
    ensures w.row.claimedAt.Some? ==> w.row.claimedAt.value <= w.clock
  {
  }

  /** A repeat of a body's run, if the guard lets it through, lands unasked. */
  lemma RepeatLands(w: World, i: nat, q: Process)
    requires Base(w) && InTime(LeaseOf(w), CLAIM_TTL_SECONDS) && Claimable(w.row.claimedAt, w.clock)
    requires i < |w.bodies| && Newer(w.bodies[i].run, w.row.runId) && PhaseOf(w, q).Idle?
    ensures var es := Attempt(q, w.bodies[i].run) + [];
            Timely(w, es, CLAIM_TTL_SECONDS) && AlwaysRecords(w, es) && !Ordered(Run(w, es).bodies)
  {
    hide Run, Timely, AllPrompt, AlwaysRecords, Base, Skips, Ordered, Newer, TextLess;
    var run := w.bodies[i].run;
    NewerPasses(run, w.row.runId);
    AttemptLands(w, q, run, [], CLAIM_TTL_SECONDS);
    Nothing(Attempted(w, q, run), CLAIM_TTL_SECONDS);
    RepeatedBreaks(w.bodies, i, Body(run, false));
  }

  /** When GitHub is ahead of the row and no holder would record it, the claim runs out and a repeat lands. */
  lemma AheadBreaks(w: World, p: Process) returns (es: seq<Event>)
    requires InvInTime(w) && !UpTo(w.bodies, w.row.runId) && !Unrecorded(w, p)
    requires forall q :: q in w.tokens ==> q == p
    ensures Timely(w, es, CLAIM_TTL_SECONDS) && AlwaysRecords(w, es) && !Ordered(Run(w, es).bodies)
  {
    hide Run, Timely, AllPrompt, AlwaysRecords, Base, Skips, Ordered, UpTo, Newer, TextLess;
    hide Inv, InvInTime, Attempt;
    ExpiryPast(w);
    var i := NotUpTo(w.bodies, w.row.runId);
    var q := Unused(w.phases.Keys + {p});
    var crashed := Step(w, Crash(p));
    var later := Step(crashed, Tick(CLAIM_TTL_SECONDS + 1));
    assert crashed.tokens == map[];
    var rest := Attempt(q, w.bodies[i].run) + [];
    es := [Crash(p)] + ([Tick(CLAIM_TTL_SECONDS + 1)] + rest);
    Cons(w, Crash(p), [Tick(CLAIM_TTL_SECONDS + 1)] + rest, CLAIM_TTL_SECONDS);
    Cons(crashed, Tick(CLAIM_TTL_SECONDS + 1), rest, CLAIM_TTL_SECONDS);
    RepeatLands(later, i, q);
  }

  /** When GitHub is ahead even of what the holder goes on to record, it records that, and a repeat lands. */
  lemma AheadOfHolderBreaks(w: World, p: Process) returns (es: seq<Event>)
    requires InvInTime(w) && Unrecorded(w, p) && !UpTo(w.bodies, Some(PhaseOf(w, p).run))
    ensures Timely(w, es, CLAIM_TTL_SECONDS) && AlwaysRecords(w, es) && !Ordered(Run(w, es).bodies)
  {
    OneHolder(w, p);
    ExpiryPast(w);
    hide Run, Timely, AllPrompt, AlwaysRecords, Base, Skips, Ordered, UpTo, Newer, TextLess;
    hide Inv, InvInTime, Attempt;
    var i := NotUpTo(w.bodies, Some(PhaseOf(w, p).run));
    var q := Unused(w.phases.Keys);
    var rest := Attempt(q, w.bodies[i].run) + [];
    var posted := if PhaseOf(w, p).Posting? then Step(w, PostEnds(p, Wrote(0))) else w;
    var done := Step(posted, Persist(p));
    assert posted.tokens == w.tokens && PhaseOf(posted, p).Posted? && PhaseOf(posted, p).run == PhaseOf(w, p).run;
    assert done.tokens == map[] && done.row.claimedAt == None && done.row.runId == Some(PhaseOf(w, p).run);
    es := [Persist(p)] + rest;
    if PhaseOf(w, p).Posting? {
      Cons(w, PostEnds(p, Wrote(0)), es, CLAIM_TTL_SECONDS);
    }
    Cons(posted, Persist(p), rest, CLAIM_TTL_SECONDS);
    RepeatLands(done, i, q);
    if PhaseOf(w, p).Posting? {
      es := [PostEnds(p, Wrote(0))] + es;
    }
  }

  lemma UncoveredBreaks(w: World) returns (es: seq<Event>)
    requires InvInTime(w) && !Covered(w)
    ensures Timely(w, es, CLAIM_TTL_SECONDS) && AlwaysRecords(w, es) && !Ordered(Run(w, es).bodies)
  {
    var p: Process := 0;
    if w.tokens != map[] {
      p :| p in w.tokens;
      OneHolder(w, p);
    }
    UncoveredNotUpTo(w);
    hide Run, Timely, AlwaysRecords, Ordered, UpTo, InvInTime;
    if Unrecorded(w, p) {
      es := AheadOfHolderBreaks(w, p);
    } else {
      es := AheadBreaks(w, p);
    }
  }

  /** No timely continuation in which nothing is lost breaks the order at GitHub. */
  ghost predicate StaysOrdered(w: World) {
    forall es :: Timely(w, es, CLAIM_TTL_SECONDS) && AlwaysRecords(w, es) ==> Ordered(Run(w, es).bodies)
  }

  lemma StaysOrderedIff(w: World)
    requires InvInTime(w)
    ensures StaysOrdered(w) <==> Sound(w)
  {
    if Sound(w) {
      hide InvInTime, Sound, Timely, AlwaysRecords, Run, Ordered;
      forall es | Timely(w, es, CLAIM_TTL_SECONDS) && AlwaysRecords(w, es) ensures Ordered(Run(w, es).bodies) {
        BodiesLandInOrder(w, es);
      }
    } else if !Ordered(w.bodies) {
      Nothing(w, CLAIM_TTL_SECONDS);
      assert Timely(w, [], CLAIM_TTL_SECONDS) && !Ordered(Run(w, []).bodies);
    } else {
      var es := UncoveredBreaks(w);
    }
  }

  lemma {:induction false} SoundThroughout(w: World, es: seq<Event>)
    requires InvInTime(w) && Sound(w) && Timely(w, es, CLAIM_TTL_SECONDS)
    ensures AlwaysRecords(w, es) <==> forall k :: 0 <= k <= |es| ==> StaysOrdered(Run(w, es[..k]))
    decreases |es|
  {
    StaysOrderedIff(w);
    hide InvInTime, Sound, Step, Records, StaysOrdered, Timely;
    assert es[..0] == [] && Run(w, []) == w;
    if es != [] {
      InTimeHead(w, es);
      var v, rest := Step(w, es[0]), es[1..];
      forall k | 1 <= k <= |es| ensures Run(w, es[..k]) == Run(v, rest[..k - 1]) {
        assert es[..k][0] == es[0] && es[..k][1..] == rest[..k - 1];
      }
      if Records(w, es[0]) {
        StepSound(w, es[0]);
        SoundThroughout(v, rest);
        assert forall k :: 0 <= k <= |rest| ==> Run(w, es[..k + 1]) == Run(v, rest[..k]);
      } else {
        StepUnsound(w, es[0]);
        StaysOrderedIff(v);
        assert rest[..0] == [] && Run(w, es[..1]) == v;
      }
    }
  }

  /**
   * In a timely run nothing newer than the record was lost, and nothing harmful straggled in, if and only if
   * at no point of it a timely continuation without such faults could break the order at GitHub.
   */
  lemma RecordingIsExact(w: World, es: seq<Event>)
    requires Quiet(w) && Timely(w, es, CLAIM_TTL_SECONDS)
    ensures AlwaysRecords(w, es) <==> forall k :: 0 <= k <= |es| ==> StaysOrdered(Run(w, es[..k]))
  {
    QuietSound(w);
    SoundThroughout(w, es);
  }

  lemma OlderBreaks(bodies: seq<Body>, last: Body)
    requires bodies != [] && TextLess(last.run, bodies[|bodies| - 1].run)
    ensures !Ordered(bodies + [last])
  {
    var all, n := bodies + [last], |bodies|;
    TextOrder(last.run, bodies[n - 1].run, last.run);
    assert all[n - 1] == bodies[n - 1] && all[n] == last;
  }

  /** A request that is on its way with an older body than the newest breaks the order when it lands. */
  lemma OlderReverses(w: World, p: Process)
    requires w.bodies != [] && PhaseOf(w, p).Posting? && !PhaseOf(w, p).landed
    requires TextLess(PhaseOf(w, p).run, w.bodies[|w.bodies| - 1].run)
    ensures !Ordered(Step(w, Lands(p)).bodies)
  {
    OlderBreaks(w.bodies, BodyOf(PhaseOf(w, p)));
  }

  /** So does one that straggles in. */
  lemma StragglerReverses(w: World, p: Process)
    requires w.bodies != [] && p in w.adrift && TextLess(w.adrift[p].run, w.bodies[|w.bodies| - 1].run)
    ensures !Ordered(Step(w, Straggles(p)).bodies)
  {
    OlderBreaks(w.bodies, w.adrift[p]);
  }

  /** Once the newest body is unrecorded and its writer gone, any writer newer than the record overwrites it. */
  lemma UnrecordedIsOverwritten(w: World, p: Process, run: string)
    requires Base(w) && PhaseOf(w, p).Idle? && Claimable(w.row.claimedAt, w.clock)
    requires !Skips(w.row.runId, run, w.row.runId)
    requires w.bodies != [] && TextLess(run, w.bodies[|w.bodies| - 1].run)
    ensures !Ordered(Run(w, Attempt(p, run)).bodies)
  {
    hide Step, Timely, AllPrompt, Run, Ordered;
    AttemptLands(w, p, run, [], 0);
    assert Attempt(p, run) + [] == Attempt(p, run);
    Nothing(Attempted(w, p, run), 0);
    OlderBreaks(w.bodies, Body(run, w.row.runId == Some(run)));
  }

  /** The writer of `run` lands its body, sees its request fail, and releases. */
  function LostResponse(p: Process, run: string): seq<Event> {
    Attempt(p, run) + [PostEnds(p, Failed), Release(p)]
  }

  /** So one lost response on a new comment is enough for an older run's body to replace a newer one's. */
  lemma LostResponseReverses(w: World, older: string, newer: string)
    requires Quiet(w) && w.row.runId.None? && Claimable(w.row.claimedAt, w.clock) && TextLess(older, newer)
    ensures var es := LostResponse(0, newer) + Attempt(1, older);
            Timely(w, es, CLAIM_TTL_SECONDS) && !Ordered(Run(w, es).bodies)
  {
    hide Run, Timely, AllPrompt, AlwaysRecords, Base, Ordered, TextLess, Skips, Attempt;
    QuietInv(w);
    NewerPasses(newer, None);
    NewerPasses(older, None);
    var n := CLAIM_TTL_SECONDS;
    var landed := Attempted(w, 0, newer);
    var failed := Step(landed, PostEnds(0, Failed));
    var released := Step(failed, Release(0));
    assert released == World(w.row.(claimedAt := None), w.clock, map[0 := Done], map[], [Body(newer, false)], map[]);
    AttemptLands(w, 0, newer, [PostEnds(0, Failed)] + ([Release(0)] + Attempt(1, older)), n);
    Cons(landed, PostEnds(0, Failed), [Release(0)] + Attempt(1, older), n);
    Cons(failed, Release(0), Attempt(1, older), n);
    AttemptLands(released, 1, older, [], n);
    Nothing(Attempted(released, 1, older), n);
    assert Attempt(1, older) + [] == Attempt(1, older);
    UnrecordedIsOverwritten(released, 1, older);
    assert LostResponse(0, newer) + Attempt(1, older)
        == Attempt(0, newer) + ([PostEnds(0, Failed)] + ([Release(0)] + Attempt(1, older)));
  }

  /** A writer past its time, on whose claim a newer run's writer lands first, reverses the two. */
  lemma LateWriterReverses(w: World, p: Process, q: Process, newer: string, n: nat)
    requires Base(w) && PhaseOf(w, p).Posting? && !PhaseOf(w, p).landed && PhaseOf(w, q).Idle?
    requires Claimable(w.row.claimedAt, w.clock) && !Skips(w.row.runId, newer, w.row.runId)
    requires TextLess(PhaseOf(w, p).run, newer)
    ensures var es := Attempt(q, newer) + [Lands(p)];
            && !Ordered(Run(w, es).bodies) && AlwaysRecords(w, es)
            && (InTime(LeaseOf(w), n) ==> Timely(w, es, n))
  {
    hide Run, Timely, AllPrompt, AlwaysRecords, Base, Ordered, TextLess, Skips;
    var landed := Attempted(w, q, newer);
    AttemptLands(w, q, newer, [Lands(p)], n);
    Cons(landed, Lands(p), [], n);
    assert [Lands(p)] + [] == [Lands(p)];
    Nothing(Step(landed, Lands(p)), n);
    OlderReverses(landed, p);
  }

  /** Runs in which holders take at most `limit` seconds and record newer bodies never break the order. */
  ghost predicate SafeLimit(limit: int) {
    forall w, es :: Quiet(w) && Timely(w, es, limit) && AlwaysRecords(w, es) ==>
      Ordered(Run(w, es).bodies)
  }

  lemma WithinLimit(w: World, es: seq<Event>, limit: int)
    requires Quiet(w) && Timely(w, es, limit) && AlwaysRecords(w, es) && limit <= CLAIM_TTL_SECONDS
    ensures Ordered(Run(w, es).bodies)
  {
    RunRefines(w, es);
    TimelyShorter(LeaseOf(w), Acts(w, es), limit);
    NeverOlderAtGithub(w, es);
  }

  /** Process 0 claims for the older run, stalls past the time to live, and lands after process 1. */
  function LateRun(older: string, newer: string): seq<Event> {
    [Start(0, older)] + ([Read(0)] + ([ReadClock(0)] + ([Claim(0)] + ([Recheck(0)] + (
      [Tick(CLAIM_TTL_SECONDS + 1)] + (Attempt(1, newer) + [Lands(0)]))))))
  }

  lemma LateRunReverses(w: World, older: string, newer: string, limit: nat)
    requires Quiet(w) && w.row.runId.None? && Claimable(w.row.claimedAt, w.clock) && TextLess(older, newer)
    requires limit > CLAIM_TTL_SECONDS
    ensures var es := LateRun(older, newer);
            Timely(w, es, limit) && AlwaysRecords(w, es) && !Ordered(Run(w, es).bodies)
  {
    hide Run, Timely, AllPrompt, AlwaysRecords, Base, Ordered, TextLess, Skips, Attempt;
    QuietInv(w);
    NewerPasses(older, None);
    NewerPasses(newer, None);
    var read := w.(phases := w.phases[0 := Claiming(older, 0, None, w.clock)]);
    var claimed := Step(read, Claim(0));
    var ready := Step(claimed, Recheck(0));
    var late := Step(ready, Tick(CLAIM_TTL_SECONDS + 1));
    assert late == World(Row(w.row.commentId, None, Some(w.clock)), w.clock + CLAIM_TTL_SECONDS + 1,
                         map[0 := Posting(older, None, w.row.commentId, false)], map[0 := w.clock], [], map[]);
    var rest := Attempt(1, newer) + [Lands(0)];
    Enters(w, 0, older, [Claim(0)] + ([Recheck(0)] + ([Tick(CLAIM_TTL_SECONDS + 1)] + rest)), limit);
    Cons(read, Claim(0), [Recheck(0)] + ([Tick(CLAIM_TTL_SECONDS + 1)] + rest), limit);
    Cons(claimed, Recheck(0), [Tick(CLAIM_TTL_SECONDS + 1)] + rest, limit);
    Cons(ready, Tick(CLAIM_TTL_SECONDS + 1), rest, limit);
    LateWriterReverses(late, 0, 1, newer, limit);
  }

  lemma FirstLetters()
    ensures TextLess("a", "b")
  {
  }

  /** A limit on writers is safe exactly when it is at most the time to live. */
  lemma SafeLimitIff(limit: nat)
    ensures SafeLimit(limit) <==> limit <= CLAIM_TTL_SECONDS
  {
    hide Run, Timely, AlwaysRecords, Ordered, TextLess, LateRun;
    if limit <= CLAIM_TTL_SECONDS {
      forall w, es | Quiet(w) && Timely(w, es, limit) && AlwaysRecords(w, es)
        ensures Ordered(Run(w, es).bodies)
      {
        WithinLimit(w, es, limit);
      }
    } else {
      FirstLetters();
      LateRunReverses(World(Row(None, None, None), 0, map[], map[], [], map[]), "a", "b", limit);
    }
  }

  // ----- Why claims must be prompt -----

  /** Whatever claims land within `delay` seconds of their readings, the recorded run never ages. */
  ghost predicate SafeDelay(delay: int) {
    forall w, es, fs :: Quiet(w) && AllPrompt(w, es, delay) && AllPrompt(Run(w, es), fs, delay) ==>
      NotOlder(Run(w, es).row.runId, Run(Run(w, es), fs).row.runId)
  }

  lemma PromptNeverAges(w: World, es: seq<Event>, fs: seq<Event>, delay: int)
    requires Quiet(w) && AllPrompt(w, es, delay) && AllPrompt(Run(w, es), fs, delay) && delay <= CLAIM_TTL_SECONDS
    ensures NotOlder(Run(w, es).row.runId, Run(Run(w, es), fs).row.runId)
  {
    QuietInv(w);
    PromptWithin(w, es, delay);
    RecordedRunNeverAges(w, es);
    PromptWithin(Run(w, es), fs, delay);
    RecordedRunNeverAges(Run(w, es), fs);
  }

  lemma PromptWithin(w: World, es: seq<Event>, delay: int)
    requires AllPrompt(w, es, delay) && delay <= CLAIM_TTL_SECONDS
    ensures AllPrompt(w, es, CLAIM_TTL_SECONDS)
  {
    RunRefines(w, es);
    PromptShorter(LeaseOf(w), Acts(w, es), delay);
  }

  /** Process `p` enters, obtains the claim, and has its request answered. */
  function Posts(p: Process, run: string, id: int, es: seq<Event>): seq<Event> {
    [Start(p, run)] + ([Read(p)] + ([ReadClock(p)] + ([Claim(p)] + (
      [Recheck(p)] + ([Lands(p)] + ([PostEnds(p, Wrote(id))] + es))))))
  }

  function AfterPosts(w: World, p: Process, run: string, id: int): World {
    w.(row := w.row.(claimedAt := Some(w.clock)), tokens := w.tokens[p := w.clock],
       phases := w.phases[p := Posted(run, w.row.runId, id)],
       bodies := w.bodies + [Body(run, w.row.runId == Some(run))])
  }

  lemma PostsRun(w: World, p: Process, run: string, id: int, es: seq<Event>, n: nat)
    requires Base(w) && PhaseOf(w, p).Idle? && Claimable(w.row.claimedAt, w.clock)
    requires !Skips(w.row.runId, run, w.row.runId)
    ensures Base(AfterPosts(w, p, run, id)) && Run(w, Posts(p, run, id, es)) == Run(AfterPosts(w, p, run, id), es)
    ensures AllPrompt(AfterPosts(w, p, run, id), es, n) ==> AllPrompt(w, Posts(p, run, id, es), n)
  {
    hide Run, Timely, AllPrompt, AlwaysRecords, Base, Skips;
    var v := w.(phases := w.phases[p := Claiming(run, 0, w.row.runId, w.clock)]);
    var last := [PostEnds(p, Wrote(id))] + es;
    Enters(w, p, run, [Claim(p)] + ([Recheck(p)] + ([Lands(p)] + last)), n);
    Writes(v, p, last, n);
    var landed := v.(row := w.row.(claimedAt := Some(w.clock)), tokens := w.tokens[p := w.clock],
                     phases := v.phases[p := Posting(run, w.row.runId, w.row.commentId, true)],
                     bodies := w.bodies + [Body(run, w.row.runId == Some(run))]);
    assert Step(landed, PostEnds(p, Wrote(id))) == AfterPosts(w, p, run, id);
    Cons(landed, PostEnds(p, Wrote(id)), es, n);
  }

  /** 2 reads its clock; 0 posts for the older run and stalls; 1 takes over and records the newer run. */
  function TakenOver(older: string, newer: string): seq<Event> {
    [Start(2, newer)] + ([Read(2)] + ([ReadClock(2)] + Posts(0, older, 7, [Tick(CLAIM_TTL_SECONDS + 1)]
      + Posts(1, newer, 7, [Persist(1)] + []))))
  }

  function AfterTakeover(w: World, older: string, newer: string): World {
    World(Row(Some(7), Some(newer), None), w.clock + CLAIM_TTL_SECONDS + 1,
          map[2 := Claiming(newer, 0, None, w.clock), 0 := Posted(older, None, 7), 1 := Done],
          map[0 := w.clock], [Body(older, false), Body(newer, false)], map[])
  }

  lemma TakeoverRuns(w: World, older: string, newer: string, n: nat)
    requires Quiet(w) && w.row.runId.None? && Claimable(w.row.claimedAt, w.clock)
    ensures Base(AfterTakeover(w, older, newer)) && AllPrompt(w, TakenOver(older, newer), n)
    ensures Run(w, TakenOver(older, newer)) == AfterTakeover(w, older, newer)
  {
    hide Run, Timely, AllPrompt, AlwaysRecords, Base, Skips, TextLess, Posts;
    QuietInv(w);
    NewerPasses(older, None);
    NewerPasses(newer, None);
    var a := w.(phases := w.phases[2 := Claiming(newer, 0, None, w.clock)]);
    var b := AfterPosts(a, 0, older, 7);
    var late := Step(b, Tick(CLAIM_TTL_SECONDS + 1));
    var c := AfterPosts(late, 1, newer, 7);
    var second := Posts(1, newer, 7, [Persist(1)] + []);
    Enters(w, 2, newer, Posts(0, older, 7, [Tick(CLAIM_TTL_SECONDS + 1)] + second), n);
    PostsRun(a, 0, older, 7, [Tick(CLAIM_TTL_SECONDS + 1)] + second, n);
    Cons(b, Tick(CLAIM_TTL_SECONDS + 1), second, n);
    PostsRun(late, 1, newer, 7, [Persist(1)] + [], n);
    Cons(c, Persist(1), [], n);
    assert Step(c, Persist(1)) == AfterTakeover(w, older, newer);
    Nothing(AfterTakeover(w, older, newer), n);
  }

  /** Then the claim of 2, with its old reading, puts the token of 0 back, and 0 records the older run. */
  lemma LateClaimReverses(w: World, older: string, newer: string, delay: nat)
    requires Quiet(w) && w.row.runId.None? && Claimable(w.row.claimedAt, w.clock) && TextLess(older, newer)
    requires delay > CLAIM_TTL_SECONDS
    ensures var v := Run(w, TakenOver(older, newer));
            var fs := [Claim(2)] + ([Persist(0)] + []);
            && AllPrompt(w, TakenOver(older, newer), delay) && AllPrompt(v, fs, delay)
            && Superseded(LeaseOf(v), 0) && !Powerless(Run(v, [Claim(2)] + []).row, v.tokens[0])
            && v.row.runId == Some(newer) && Run(v, fs).row.runId == Some(older)
  {
    hide Run, Timely, AllPrompt, AlwaysRecords, Base, Skips, TextLess;
    TakeoverRuns(w, older, newer, delay);
    var v := AfterTakeover(w, older, newer);
    var revived := Step(v, Claim(2));
    var aged := Step(revived, Persist(0));
    assert revived.row.claimedAt == Some(w.clock) && aged.row.runId == Some(older);
    Cons(v, Claim(2), [Persist(0)] + [], delay);
    Cons(v, Claim(2), [], delay);
    Cons(revived, Persist(0), [], delay);
    Nothing(revived, delay);
    Nothing(aged, delay);
    PowerlessIff(revived.row, w.clock);
  }

  /** The recorded run never ages exactly when no claim lands later than the time to live. */
  lemma SafeDelayIff(delay: nat)
    ensures SafeDelay(delay) <==> delay <= CLAIM_TTL_SECONDS
  {
    hide Run, Step, AllPrompt, Base, TakenOver, Powerless;
    if delay <= CLAIM_TTL_SECONDS {
      forall w, es, fs | Quiet(w) && AllPrompt(w, es, delay) && AllPrompt(Run(w, es), fs, delay)
        ensures NotOlder(Run(w, es).row.runId, Run(Run(w, es), fs).row.runId)
      {
        PromptNeverAges(w, es, fs, delay);
      }
    } else {
      FirstLetters();
      LateClaimReverses(World(Row(None, None, None), 0, map[], map[], [], map[]), "a", "b", delay);
    }
  }
}
