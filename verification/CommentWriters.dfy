/**
 * What one writer of a pull request's comment does among the others (postWithWriteMutex of
 * apps/dashboard/src/lib/github-surface-post.ts): what it keeps of its first read, when it gives way, how often it
 * tries, and what its answer leaves in the row, in any interleaving.
 */
module CommentWriters {
  import opened Prelude
  import opened Text
  import opened Lease
  import opened CommentMutex

  lemma {:induction false} RunSnoc(w: World, es: seq<Event>, e: Event)
    ensures Run(w, es + [e]) == Step(Run(w, es), e)
    decreases |es|
  {
    hide Step;
    if es == [] {
      assert [] + [e] == [e] && [e][1..] == [];
    } else {
      assert (es + [e])[0] == es[0] && (es + [e])[1..] == es[1..] + [e];
      RunSnoc(Step(w, es[0]), es[1..], e);
    }
  }

  // ----- The first read -----

  /** A phase of a writer of `run` whose first read found `initial` recorded. */
  predicate Carries(phase: Phase, run: string, initial: Option<string>) {
    match phase
    case Idle => false
    case Reading(r, _, first) => r == run && first == Some(initial)
    case Ready(r, _, i) => r == run && i == initial
    case Claiming(r, _, i, _) => r == run && i == initial
    case Rechecking(r, i) => r == run && i == initial
    case Posting(r, i, _, _) => r == run && i == initial
    case Posted(r, i, _) => r == run && i == initial
    case Releasing => true
    case Done => true
  }

  predicate Marked(w: World, p: Process, body: Body) {
    p in w.adrift ==> w.adrift[p] == body
  }

  lemma StepCarries(w: World, e: Event, p: Process, run: string, initial: Option<string>)
    requires Carries(PhaseOf(w, p), run, initial) && Marked(w, p, Body(run, initial == Some(run)))
    ensures Carries(PhaseOf(Step(w, e), p), run, initial)
    ensures Marked(Step(w, e), p, Body(run, initial == Some(run)))
  {
    hide Skips, Claimable, Released, Persisted;
  }

  lemma {:induction false} RunCarries(w: World, es: seq<Event>, p: Process, run: string, initial: Option<string>)
    requires Carries(PhaseOf(w, p), run, initial) && Marked(w, p, Body(run, initial == Some(run)))
    ensures Carries(PhaseOf(Run(w, es), p), run, initial)
    ensures Marked(Run(w, es), p, Body(run, initial == Some(run)))
    decreases |es|
  {
    if es != [] {
      StepCarries(w, es[0], p, run, initial);
      hide Step, Carries;
      RunCarries(Step(w, es[0]), es[1..], p, run, initial);
    }
  }

  /** What a writer's first read finds recorded stays with it over every retry, whatever happens in between. */
  lemma FirstReadKept(w: World, fs: seq<Event>, p: Process, run: string)
    requires PhaseOf(w, p) == Reading(run, 0, None) && p !in w.adrift
    ensures Carries(PhaseOf(Run(w, [Read(p)] + fs), p), run, w.row.runId)
    ensures Marked(Run(w, [Read(p)] + fs), p, Body(run, w.row.runId == Some(run)))
  {
    var read := Step(w, Read(p));
    assert Carries(PhaseOf(read, p), run, w.row.runId) && p !in read.adrift;
    assert ([Read(p)] + fs)[1..] == fs;
    hide Step, Carries;
    RunCarries(read, fs, p, run, w.row.runId);
  }

  /** So its body, on time or late, is marked as a refresh exactly if its run was recorded at that first read. */
  lemma RefreshExactly(w: World, fs: seq<Event>, p: Process, run: string)
    requires PhaseOf(w, p) == Reading(run, 0, None) && p !in w.adrift
    ensures var v, body := Run(w, [Read(p)] + fs), Body(run, w.row.runId == Some(run));
            && (PhaseOf(v, p).Posting? && !PhaseOf(v, p).landed ==> Step(v, Lands(p)).bodies == v.bodies + [body])
            && (p in v.adrift ==> Step(v, Straggles(p)).bodies == v.bodies + [body])
  {
    FirstReadKept(w, fs, p, run);
    hide Run;
  }

  // ----- Giving way -----

  /** At the first read a writer gives way to a newer run only. */
  lemma FirstReadDecides(w: World, p: Process, run: string)
    requires PhaseOf(w, p) == Reading(run, 0, None)
    ensures PhaseOf(Step(w, Read(p)), p) ==
            if w.row.runId.Some? && TextLess(run, w.row.runId.value) then Done else Ready(run, 0, w.row.runId)
  {
    hide TextLess;
  }

  /**
   * Later it also gives way to its own run, unless that was recorded at the first read already: before it claims
   * again it is done, and under the claim it releases. Otherwise it writes to the comment that is recorded then.
   */
  lemma LaterReadsDecide(w: World, fs: seq<Event>, p: Process, run: string)
    requires PhaseOf(w, p) == Reading(run, 0, None) && p !in w.adrift
    ensures var v := Run(w, [Read(p)] + fs);
            var newer := v.row.runId.Some? && TextLess(run, v.row.runId.value);
            var lost := v.row.runId == Some(run) && w.row.runId != Some(run);
            && (PhaseOf(v, p).Reading? ==>
                  PhaseOf(Step(v, Read(p)), p) ==
                  if newer || lost then Done else Ready(run, PhaseOf(v, p).attempt, w.row.runId))
            && (PhaseOf(v, p).Rechecking? ==>
                  PhaseOf(Step(v, Recheck(p)), p) ==
                  if newer || lost then Releasing else Posting(run, w.row.runId, v.row.commentId, false))
  {
    FirstReadKept(w, fs, p, run);
    hide Run, TextLess;
  }

  /**
   * While claims are prompt: whoever writes under the claim in the column is newer than the record, or refreshes
   * its own run, which then was recorded before it began. The loser of a concurrent write never writes.
   */
  lemma NoDuplicateWrite(w: World, fs: seq<Event>, p: Process, run: string)
    requires Inv(w) && PhaseOf(w, p) == Reading(run, 0, None) && p !in w.adrift
    requires CommentMutex.AllPrompt(w, [Read(p)] + fs, CLAIM_TTL_SECONDS)
    ensures var v := Run(w, [Read(p)] + fs);
            Writing(PhaseOf(v, p)) && v.row.claimedAt == Token(v, p) && v.row.runId.Some? ==>
              TextLess(v.row.runId.value, run) || (v.row.runId == Some(run) && w.row.runId == Some(run))
  {
    FirstReadKept(w, fs, p, run);
    RecordedRunNeverAges(w, [Read(p)] + fs);
    var v := Run(w, [Read(p)] + fs);
    hide Run, TextLess, Skips, CommentMutex.AllPrompt;
    BaseAt(v, p);
    if Writing(PhaseOf(v, p)) && v.row.claimedAt == Token(v, p) {
      assert GuardOk(v, p);
      GuardNotOlder(v.row.runId, run, w.row.runId);
    }
  }

  lemma {:induction false} DoneStays(w: World, es: seq<Event>, p: Process)
    requires PhaseOf(w, p).Done?
    requires forall i :: 0 <= i < |es| ==> es[i].ReadClock? || es[i].Claim? || es[i].Recheck? || es[i].Lands?
    requires forall i :: 0 <= i < |es| ==> es[i].p == p
    ensures Run(w, es) == w
    decreases |es|
  {
    if es != [] {
      assert Step(w, es[0]) == w;
      hide Step;
      DoneStays(w, es[1..], p);
    }
  }

  lemma NewerStopsWriter(w: World, p: Process, run: string)
    requires PhaseOf(w, p).Idle? && w.row.runId.Some? && TextLess(run, w.row.runId.value)
    ensures Run(w, Attempt(p, run)).bodies == w.bodies
  {
    var v := Step(Step(w, Start(p, run)), Read(p));
    assert PhaseOf(v, p).Done? && v.bodies == w.bodies;
    hide Step, TextLess;
    var rest := [ReadClock(p), Claim(p), Recheck(p), Lands(p)];
    assert Attempt(p, run)[1..] == [Read(p)] + rest && ([Read(p)] + rest)[1..] == rest;
    DoneStays(v, rest, p);
  }

  /** Undisturbed, a writer's body lands unless a newer run is recorded; it is a refresh if its own run is. */
  lemma UndisturbedWriter(w: World, p: Process, run: string)
    requires Base(w) && PhaseOf(w, p).Idle?
    requires w.row.claimedAt.Some? ==> w.row.claimedAt.value + CLAIM_TTL_SECONDS < w.clock
    ensures Run(w, Attempt(p, run)).bodies ==
            if w.row.runId.Some? && TextLess(run, w.row.runId.value) then w.bodies
            else w.bodies + [Body(run, w.row.runId == Some(run))]
  {
    if w.row.runId.Some? && TextLess(run, w.row.runId.value) {
      NewerStopsWriter(w, p, run);
    } else {
      hide Run, TextLess, Attempt;
      AttemptLands(w, p, run, [], 0);
      assert Attempt(p, run) + [] == Attempt(p, run);
      Nothing(Attempted(w, p, run), 0);
    }
  }

  // ----- Retries -----

  /** The claim of `p` is refused: an unexpired claim is there. */
  predicate Refused(w: World, e: Event, p: Process) {
    e == Claim(p) && PhaseOf(w, p).Claiming? && w.row.claimedAt.Some?
    && w.row.claimedAt.value + CLAIM_TTL_SECONDS >= PhaseOf(w, p).now
  }

  function Refusals(w: World, es: seq<Event>, p: Process): nat
    decreases |es|
  {
    if es == [] then 0 else (if Refused(w, es[0], p) then 1 else 0) + Refusals(Step(w, es[0]), es[1..], p)
  }

  /** So many refusals so far; after a fourth there is no other attempt. */
  predicate Tried(phase: Phase, n: nat) {
    match phase
    case Idle => n == 0
    case Reading(_, attempt, _) => n == attempt < 4
    case Ready(_, attempt, _) => n == attempt < 4
    case Claiming(_, attempt, _, _) => n == attempt < 4
    case Done => n <= 4
    case _ => n < 4
  }

  lemma StepTries(w: World, e: Event, p: Process, n: nat)
    requires Tried(PhaseOf(w, p), n)
    ensures Tried(PhaseOf(Step(w, e), p), if Refused(w, e, p) then n + 1 else n)
  {
    hide Skips, Released, Persisted;
  }

  lemma {:induction false} RunTries(w: World, es: seq<Event>, p: Process, n: nat)
    requires Tried(PhaseOf(w, p), n)
    ensures Tried(PhaseOf(Run(w, es), p), n + Refusals(w, es, p))
    decreases |es|
  {
    if es != [] {
      StepTries(w, es[0], p, n);
      hide Step, Tried, Refused;
      RunTries(Step(w, es[0]), es[1..], p, if Refused(w, es[0], p) then n + 1 else n);
    }
  }

  /** A refused writer tries again up to three times, keeping its first read, and gives up at the fourth refusal. */
  lemma FourAttempts(w: World, es: seq<Event>, p: Process)
    requires PhaseOf(w, p).Idle? && Refused(Run(w, es), Claim(p), p)
    ensures var v, n := Run(w, es), Refusals(w, es, p);
            && n <= 3 && Step(v, Claim(p)).row == v.row
            && PhaseOf(Step(v, Claim(p)), p) ==
               if n < 3 then Reading(PhaseOf(v, p).run, n + 1, Some(PhaseOf(v, p).initial)) else Done
  {
    RunTries(w, es, p, 0);
    hide Run, Refusals;
  }

  // ----- What an answer leaves in the row -----

  /** Steps of other processes, and of the clock. */
  predicate Others(es: seq<Event>, p: Process) {
    forall i :: 0 <= i < |es| ==> es[i].Tick? || es[i].p != p
  }

  lemma {:induction false} OthersLeave(w: World, es: seq<Event>, p: Process)
    requires Others(es, p)
    ensures PhaseOf(Run(w, es), p) == PhaseOf(w, p) && Token(Run(w, es), p) == Token(w, p)
    decreases |es|
  {
    if es != [] {
      StepFrame(w, es[0], p);
      hide Step;
      OthersLeave(Step(w, es[0]), es[1..], p);
    }
  }

  /** A step of `p`, whatever the others do, and another step of `p`. */
  lemma Between(w: World, first: Event, fs: seq<Event>, last: Event, p: Process)
    requires Others(fs, p)
    ensures var mid := Run(Step(w, first), fs);
            && Run(w, [first] + fs + [last]) == Step(mid, last)
            && PhaseOf(mid, p) == PhaseOf(Step(w, first), p) && Token(mid, p) == Token(Step(w, first), p)
  {
    hide Step;
    RunSnoc(w, [first] + fs, last);
    assert ([first] + fs)[0] == first && ([first] + fs)[1..] == fs;
    OthersLeave(Step(w, first), fs, p);
  }

  /**
   * Whatever others do before an answer is recorded: it leaves the comment that GitHub answered with and the
   * writer's run in the row if the writer's claim is still there, and else nothing.
   */
  lemma AnswerIsRecorded(w: World, fs: seq<Event>, p: Process, id: int)
    requires Base(w) && PhaseOf(w, p).Posting? && PhaseOf(w, p).landed && Others(fs, p)
    ensures var mid := Run(Step(w, PostEnds(p, Wrote(id))), fs);
            var v := Run(w, [PostEnds(p, Wrote(id))] + fs + [Persist(p)]);
            && p in w.tokens && PhaseOf(v, p).Done? && p !in v.tokens
            && v.row == if mid.row.claimedAt == Some(w.tokens[p]) then Row(Some(id), Some(PhaseOf(w, p).run), None)
                        else mid.row
  {
    assert PhaseOk(w, p);
    Between(w, PostEnds(p, Wrote(id)), fs, Persist(p), p);
    hide Run, Skips, Claimable;
  }

  /** A writer whose request fails, or is answered without an id, clears its own claim and nobody else's. */
  lemma FailureReleases(w: World, fs: seq<Event>, p: Process, outcome: Outcome)
    requires Base(w) && PhaseOf(w, p).Posting? && Others(fs, p)
    requires outcome.Failed? || (outcome.NoId? && PhaseOf(w, p).landed)
    ensures var mid := Run(Step(w, PostEnds(p, outcome)), fs);
            var v := Run(w, [PostEnds(p, outcome)] + fs + [Release(p)]);
            && p in w.tokens && PhaseOf(v, p).Done? && p !in v.tokens
            && v.row == if mid.row.claimedAt == Some(w.tokens[p]) then mid.row.(claimedAt := None) else mid.row
  {
    assert PhaseOk(w, p);
    Between(w, PostEnds(p, outcome), fs, Release(p), p);
    hide Run, Skips, Claimable;
  }

  lemma {:induction false} OthersLeaveAdrift(w: World, es: seq<Event>, p: Process)
    requires Others(es, p)
    ensures p in Run(w, es).adrift <==> p in w.adrift
    ensures p in w.adrift ==> Run(w, es).adrift[p] == w.adrift[p]
    decreases |es|
  {
    if es != [] {
      StepAdrift(w, es[0], p);
      hide Step;
      OthersLeaveAdrift(Step(w, es[0]), es[1..], p);
    }
  }

  lemma StepAdrift(w: World, e: Event, p: Process)
    requires e.Tick? || e.p != p
    ensures p in Step(w, e).adrift <==> p in w.adrift
    ensures p in w.adrift ==> Step(w, e).adrift[p] == w.adrift[p]
  {
    hide Skips, Claimable, Released, Persisted;
  }

  /** A request that was given up before it landed may still land later; one that has landed does not land again. */
  lemma GivenUpMayLand(w: World, first: Event, fs: seq<Event>, p: Process)
    requires PhaseOf(w, p).Posting? && p !in w.adrift && Others(fs, p)
    requires first == Crash(p) || first == PostEnds(p, Failed)
    ensures var mid, v := Run(Step(w, first), fs), Run(w, [first] + fs + [Straggles(p)]);
            var Posting(run, initial, _, landed) := PhaseOf(w, p);
            v.bodies == if landed then mid.bodies else mid.bodies + [Body(run, initial == Some(run))]
  {
    Between(w, first, fs, Straggles(p), p);
    OthersLeaveAdrift(Step(w, first), fs, p);
    hide Run;
  }

  /** GitHub has answered a writer of this run with this id. */
  ghost predicate Answered(w: World, es: seq<Event>, id: int, run: string) {
    exists k :: 0 <= k < |es| && AnswersWith(Run(w, es[..k]), es[k], id, run)
  }

  predicate AnswersWith(w: World, e: Event, id: int, run: string) {
    e.PostEnds? && e.outcome == Wrote(id) && PhaseOf(w, e.p).Posting? && PhaseOf(w, e.p).landed
    && PhaseOf(w, e.p).run == run
  }

  lemma AnsweredLater(w: World, es: seq<Event>, e: Event, id: int, run: string)
    ensures Answered(w, es + [e], id, run) <==> Answered(w, es, id, run) || AnswersWith(Run(w, es), e, id, run)
  {
    hide Step, Run, AnswersWith;
    var all := es + [e];
    assert all[..|es|] == es && all[|es|] == e;
    forall k | 0 <= k < |es| ensures all[..k] == es[..k] && all[k] == es[k] {}
    if Answered(w, es, id, run) {
      var k :| 0 <= k < |es| && AnswersWith(Run(w, es[..k]), es[k], id, run);
      assert AnswersWith(Run(w, all[..k]), all[k], id, run);
    }
    if Answered(w, all, id, run) {
      var k :| 0 <= k < |all| && AnswersWith(Run(w, all[..k]), all[k], id, run);
      assert k < |es| ==> AnswersWith(Run(w, es[..k]), es[k], id, run);
    }
    if AnswersWith(Run(w, es), e, id, run) {
      assert AnswersWith(Run(w, all[..|es|]), all[|es|], id, run);
    }
  }

  /** The row records this comment as last written for this run. */
  predicate Recorded(row: Row, id: int, run: string) {
    row.commentId == Some(id) && row.runId == Some(run)
  }

  /** What a step can bring into the row, or on its way into it. */
  lemma StepRecord(w: World, e: Event, p: Process)
    ensures var u, v := w.row, Step(w, e).row;
            || (v.commentId == u.commentId && v.runId == u.runId)
            || (e.Persist? && PhaseOf(w, e.p).Posted? && Recorded(v, PhaseOf(w, e.p).id, PhaseOf(w, e.p).run))
    ensures var phase := PhaseOf(Step(w, e), p);
            phase.Posted? ==>
              phase == PhaseOf(w, p) || (e.PostEnds? && e.p == p && AnswersWith(w, e, phase.id, phase.run))
  {
    hide Skips, Claimable;
  }

  /** Comment and run change together, to what GitHub answered and to the run whose writer it answered. */
  lemma {:induction false} RecordComesFromAnswer(w: World, es: seq<Event>)
    requires Quiet(w)
    ensures var row := Run(w, es).row;
            || (row.commentId == w.row.commentId && row.runId == w.row.runId)
            || exists id, run :: Recorded(row, id, run) && Answered(w, es, id, run)
    ensures forall p :: PhaseOf(Run(w, es), p).Posted? ==>
              Answered(w, es, PhaseOf(Run(w, es), p).id, PhaseOf(Run(w, es), p).run)
    decreases |es|
  {
    if es != [] {
      var front, last := es[..|es| - 1], es[|es| - 1];
      assert es == front + [last];
      RecordComesFromAnswer(w, front);
      RunSnoc(w, front, last);
      hide Run, Step, Answered, AnswersWith, Quiet, Recorded;
      var u := Run(w, front);
      forall p | PhaseOf(Run(w, es), p).Posted?
        ensures Answered(w, es, PhaseOf(Run(w, es), p).id, PhaseOf(Run(w, es), p).run)
      {
        var phase := PhaseOf(Run(w, es), p);
        StepRecord(u, last, p);
        AnsweredLater(w, front, last, phase.id, phase.run);
      }
      StepRecord(u, last, 0);
      if last.Persist? && PhaseOf(u, last.p).Posted?
         && Recorded(Run(w, es).row, PhaseOf(u, last.p).id, PhaseOf(u, last.p).run) {
        AnsweredLater(w, front, last, PhaseOf(u, last.p).id, PhaseOf(u, last.p).run);
      } else if exists id, run :: Recorded(u.row, id, run) && Answered(w, front, id, run) {
        var id, run :| Recorded(u.row, id, run) && Answered(w, front, id, run);
        AnsweredLater(w, front, last, id, run);
        SameRecord(u.row, Run(w, es).row, id, run);
      }
    }
  }

  lemma SameRecord(a: Row, b: Row, id: int, run: string)
    requires a.commentId == b.commentId && a.runId == b.runId
    ensures Recorded(a, id, run) <==> Recorded(b, id, run)
  {
  }
}
