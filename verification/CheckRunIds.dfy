/**
 * Whose id the row of a run holds: where ids come from, who records them, and what the ways through
 * postWithClaimedSlot of apps/dashboard/src/lib/github-surface-post.ts come to, in any interleaving.
 */
module CheckRunIds {
  import opened Prelude
  import opened Lease
  import opened CheckRun

  lemma {:induction false} RunSnoc(w: World, es: seq<Event>, e: Event)
    ensures Run(w, es + [e]) == Step(Run(w, es), e)
    decreases |es|
  {
    hide Step;
    if es == [] {
      assert [] + [e] == [e] && [e][1..] == [];
    } else {
      assert (es + [e])[0] == es[0] && (es + [e])[1..] == es[1..] + [e];
      RunSnoc(Step(w, es[0]), es[1..], e);
    }
  }

  // ----- Ids come from GitHub -----

  /** GitHub has answered the request of some process with this id. */
  ghost predicate Answered(w: World, es: seq<Event>, id: int) {
    exists k :: 0 <= k < |es| && AnswersWith(Run(w, es[..k]), es[k], id)
  }

  predicate AnswersWith(w: World, e: Event, id: int) {
    e.PostEnds? && e.outcome == Wrote(id) && PhaseOf(w, e.p).Posting? && PhaseOf(w, e.p).landed
  }

  lemma AnsweredLater(w: World, es: seq<Event>, e: Event, id: int)
    ensures Answered(w, es + [e], id) <==> Answered(w, es, id) || AnswersWith(Run(w, es), e, id)
  {
    hide Step, Run, AnswersWith;
    var all := es + [e];
    assert all[..|es|] == es && all[|es|] == e;
    forall k | 0 <= k < |es| ensures all[..k] == es[..k] && all[k] == es[k] {}
    if Answered(w, es, id) {
      var k :| 0 <= k < |es| && AnswersWith(Run(w, es[..k]), es[k], id);
      assert AnswersWith(Run(w, all[..k]), all[k], id);
    }
    if Answered(w, all, id) {
      var k :| 0 <= k < |all| && AnswersWith(Run(w, all[..k]), all[k], id);
      assert k < |es| ==> AnswersWith(Run(w, es[..k]), es[k], id);
    }
    if AnswersWith(Run(w, es), e, id) {
      assert AnswersWith(Run(w, all[..|es|]), all[|es|], id);
    }
  }

  /** An id is new to the row or to a phase only from a phase that has it, or from an answer. */
  lemma StepIds(w: World, e: Event, p: Process, id: int)
    ensures Step(w, e).row.checkRunId == Some(id) ==>
              w.row.checkRunId == Some(id) || (e.Persist? && PhaseOf(w, e.p).Posted? && PhaseOf(w, e.p).id == id)
    ensures PhaseOf(Step(w, e), p).Posted? && PhaseOf(Step(w, e), p).id == id ==>
              PhaseOf(w, p) == PhaseOf(Step(w, e), p) || (AnswersWith(w, e, id) && e.p == p)
  {
    hide CanClaim, Cleared;
  }

  /** Every id in the row, or on its way into it, is one with which GitHub answered a request of the run. */
  lemma {:induction false} IdsComeFromGithub(w: World, es: seq<Event>, id: int)
    requires Fresh(w)
    ensures Run(w, es).row.checkRunId == Some(id) ==> Answered(w, es, id)
    ensures forall p :: PhaseOf(Run(w, es), p).Posted? && PhaseOf(Run(w, es), p).id == id ==> Answered(w, es, id)
    decreases |es|
  {
    if es != [] {
      var front, last := es[..|es| - 1], es[|es| - 1];
      assert es == front + [last];
      IdsComeFromGithub(w, front, id);
      RunSnoc(w, front, last);
      AnsweredLater(w, front, last, id);
      hide Run, Step, Answered, AnswersWith, Fresh;
      StepIds(Run(w, front), last, 0, id);
      forall p | PhaseOf(Run(w, es), p).Posted? && PhaseOf(Run(w, es), p).id == id ensures Answered(w, es, id) {
        StepIds(Run(w, front), last, p, id);
      }
    }
  }

  // ----- A PATCH goes to an id of the row -----

  /** The id that a process has read and works with. */
  function Existing(phase: Phase): Option<int> {
    match phase
    case Ready(initialId) => initialId
    case Posting(existingId, _) => existingId
    case Posted(_, existingId) => existingId
    case _ => None
  }

  lemma StepExisting(w: World, e: Event, p: Process)
    ensures Existing(PhaseOf(Step(w, e), p)).Some? ==>
              Existing(PhaseOf(Step(w, e), p)) == Existing(PhaseOf(w, p)) ||
              Existing(PhaseOf(Step(w, e), p)) == w.row.checkRunId
  {
    hide CanClaim, Cleared;
  }

  /** The id that a process sends its PATCH to is one that the row has had. */
  lemma {:induction false} PatchesIdOfRow(w: World, es: seq<Event>, p: Process) returns (k: nat)
    requires Fresh(w) && Existing(PhaseOf(Run(w, es), p)).Some?
    ensures k < |es| && Run(w, es[..k]).row.checkRunId == Existing(PhaseOf(Run(w, es), p))
    decreases |es|
  {
    var front, last := es[..|es| - 1], es[|es| - 1];
    assert es == front + [last];
    RunSnoc(w, front, last);
    hide Step, CanClaim;
    StepExisting(Run(w, front), last, p);
    if Existing(PhaseOf(Run(w, es), p)) == Run(w, front).row.checkRunId {
      k := |front|;
    } else {
      k := PatchesIdOfRow(w, front, p);
      assert es[..k] == front[..k];
    }
  }

  // ----- The ways through the sequence -----

  /** Steps of other processes, and of the clock. */
  predicate Others(es: seq<Event>, p: Process) {
    forall i :: 0 <= i < |es| ==> es[i].Tick? || es[i].p != p
  }

  lemma {:induction false} OthersLeave(w: World, es: seq<Event>, p: Process)
    requires Others(es, p)
    ensures PhaseOf(Run(w, es), p) == PhaseOf(w, p) && Token(Run(w, es), p) == Token(w, p)
    decreases |es|
  {
    if es != [] {
      StepFrame(w, es[0], p);
      hide Step;
      OthersLeave(Step(w, es[0]), es[1..], p);
    }
  }

  /** A step of `p`, whatever the others do, and another step of `p`. */
  lemma Between(w: World, first: Event, fs: seq<Event>, last: Event, p: Process)
    requires Others(fs, p)
    ensures var mid := Run(Step(w, first), fs);
            && Run(w, [first] + fs + [last]) == Step(mid, last)
            && PhaseOf(mid, p) == PhaseOf(Step(w, first), p) && Token(mid, p) == Token(Step(w, first), p)
  {
    hide Step;
    RunSnoc(w, [first] + fs, last);
    assert ([first] + fs)[0] == first && ([first] + fs)[1..] == fs;
    OthersLeave(Step(w, first), fs, p);
  }

  /** A process that finds an id sends a PATCH to it, without a claim. */
  lemma KnownIdIsPatched(w: World, fs: seq<Event>, p: Process)
    requires PhaseOf(w, p).Idle? && w.row.checkRunId.Some? && Others(fs, p)
    ensures var v := Run(w, [Begin(p)] + fs + [ReadClock(p)]);
            PhaseOf(v, p) == Posting(w.row.checkRunId, false) && Token(v, p) == Token(w, p)
            && v.row == Run(Step(w, Begin(p)), fs).row
  {
    Between(w, Begin(p), fs, ReadClock(p), p);
  }

  /** A process whose claim is refused follows the winner: it patches the id that is there by then, or gives up. */
  lemma LoserFollows(w: World, fs: seq<Event>, p: Process)
    requires Base(w) && PhaseOf(w, p).Claiming? && Others(fs, p)
    requires w.row.checkRunId.Some? || (w.row.claimedAt.Some? &&
               w.row.claimedAt.value + CLAIM_TTL_SECONDS >= PhaseOf(w, p).now)
    ensures var mid, v := Run(Step(w, Claim(p)), fs), Run(w, [Claim(p)] + fs + [Reread(p)]);
            && Step(w, Claim(p)).row == w.row && v.row == mid.row && p !in v.tokens
            && PhaseOf(v, p) == if mid.row.checkRunId.None? then Done else Posting(mid.row.checkRunId, false)
  {
    assert PhaseOk(w, p);
    Between(w, Claim(p), fs, Reread(p), p);
    hide Run;
  }

  /** A process whose claim is granted posts, and holds the claim. */
  lemma WinnerPosts(w: World, p: Process)
    requires PhaseOf(w, p).Claiming? && w.row.checkRunId.None?
    requires w.row.claimedAt.Some? ==> w.row.claimedAt.value + CLAIM_TTL_SECONDS < PhaseOf(w, p).now
    ensures var v := Step(w, Claim(p));
            && v.row == Row(None, Some(PhaseOf(w, p).now)) && Token(v, p) == v.row.claimedAt
            && PhaseOf(v, p) == Posting(None, false)
  {
  }

  /**
   * What becomes of an answer, whatever others do before it is recorded: a holder leaves its own id in the row if
   * its claim is still there and else nothing; a PATCH that is answered with the id it went to leaves the row alone.
   */
  lemma AnswerIsRecorded(w: World, fs: seq<Event>, p: Process, id: int)
    requires Base(w) && PhaseOf(w, p).Posting? && PhaseOf(w, p).landed && Others(fs, p)
    ensures var mid := Run(Step(w, PostEnds(p, Wrote(id))), fs);
            var v := Run(w, [PostEnds(p, Wrote(id))] + fs + [Persist(p)]);
            && PhaseOf(v, p).Done? && p !in v.tokens
            && (PhaseOf(w, p).existingId.None? ==>
                  p in w.tokens &&
                  v.row == if mid.row.claimedAt == Some(w.tokens[p]) then Row(Some(id), None) else mid.row)
            && (PhaseOf(w, p).existingId.Some? ==>
                  v.row == if PhaseOf(w, p).existingId.value == id then mid.row else Row(Some(id), None))
  {
    assert PhaseOk(w, p);
    Between(w, PostEnds(p, Wrote(id)), fs, Persist(p), p);
    hide Run, CanClaim, Cleared;
  }

  /** A holder whose request fails, or is answered without an id, clears its own claim and nobody else's. */
  lemma FailureReleases(w: World, fs: seq<Event>, p: Process, outcome: Outcome)
    requires Base(w) && PhaseOf(w, p).Posting? && Others(fs, p)
    requires outcome.Failed? || (outcome.NoId? && PhaseOf(w, p).landed)
    ensures var mid := Run(Step(w, PostEnds(p, outcome)), fs);
            var v := Run(w, [PostEnds(p, outcome)] + fs + [Release(p)]);
            && PhaseOf(v, p).Done? && p !in v.tokens && Step(w, PostEnds(p, outcome)).row == w.row
            && v.row == if p in w.tokens && mid.row.claimedAt == Some(w.tokens[p]) then mid.row.(claimedAt := None)
                        else mid.row
  {
    assert PhaseOk(w, p);
    Between(w, PostEnds(p, outcome), fs, Release(p), p);
    hide Run, CanClaim;
  }

  // ----- Requests that nobody waits for -----

  lemma {:induction false} OthersLeaveAdrift(w: World, es: seq<Event>, p: Process)
    requires Others(es, p)
    ensures p in Run(w, es).adrift <==> p in w.adrift
    decreases |es|
  {
    if es != [] {
      StepAdrift(w, es[0], p);
      hide Step;
      OthersLeaveAdrift(Step(w, es[0]), es[1..], p);
    }
  }

  lemma StepAdrift(w: World, e: Event, p: Process)
    requires e.Tick? || e.p != p
    ensures p in Step(w, e).adrift <==> p in w.adrift
  {
    hide CanClaim, Cleared, Persisted;
  }

  /** A POST that was given up before it landed may still make a check run later; a PATCH, or one that landed, not. */
  lemma GivenUpMayLand(w: World, first: Event, fs: seq<Event>, p: Process)
    requires Base(w) && PhaseOf(w, p).Posting? && p !in w.adrift && Others(fs, p)
    requires first == Crash(p) || first == PostEnds(p, Failed)
    ensures var mid, v := Run(Step(w, first), fs), Run(w, [first] + fs + [Straggles(p)]);
            v.created == mid.created + if PhaseOf(w, p) == Posting(None, false) then 1 else 0
  {
    assert PhaseOk(w, p);
    Between(w, first, fs, Straggles(p), p);
    OthersLeaveAdrift(Step(w, first), fs, p);
    hide Run;
  }

  // ----- While GitHub echoes the ids it is sent -----

  /** A PATCH that is answered with an id is answered with the one it went to. */
  predicate Echoes(w: World, e: Event) {
    e.PostEnds? && e.outcome.Wrote? && PhaseOf(w, e.p).Posting? && PhaseOf(w, e.p).existingId.Some? ==>
      PhaseOf(w, e.p).existingId.value == e.outcome.id
  }

  ghost predicate AlwaysEchoes(w: World, es: seq<Event>)
    decreases |es|
  {
    es == [] || (Echoes(w, es[0]) && AlwaysEchoes(Step(w, es[0]), es[1..]))
  }

  /** Whoever works with an id works with the row's. */
  predicate Current(w: World, p: Process) {
    && (Existing(PhaseOf(w, p)).Some? ==> Existing(PhaseOf(w, p)) == w.row.checkRunId)
    && (PhaseOf(w, p).Posted? && PhaseOf(w, p).existingId.Some? ==> PhaseOf(w, p).existingId.value == PhaseOf(w, p).id)
  }

  ghost predicate AllCurrent(w: World) {
    Base(w) && forall p: Process :: Current(w, p)
  }

  lemma StepKeepsId(w: World, e: Event)
    requires AllCurrent(w) && Echoes(w, e)
    ensures w.row.checkRunId.Some? ==> Step(w, e).row == w.row
  {
    if !e.Tick? {
      assert PhaseOk(w, e.p) && Current(w, e.p);
    }
  }

  lemma StepCurrent(w: World, e: Event, p: Process)
    requires AllCurrent(w) && Echoes(w, e)
    ensures Current(Step(w, e), p)
  {
    StepKeepsId(w, e);
    assert Current(w, p) && PhaseOk(w, p);
    StepFrame(w, e, p);
    StepExisting(w, e, p);
    if !e.Tick? && e.p == p {
      hide CanClaim, Cleared, Base;
    } else {
      hide Step;
    }
  }

  lemma AllCurrentKept(w: World, e: Event)
    requires AllCurrent(w) && Echoes(w, e)
    ensures AllCurrent(Step(w, e))
  {
    StepKeeps(w, e);
    forall p: Process ensures Current(Step(w, e), p) {
      StepCurrent(w, e, p);
    }
  }

  lemma {:induction false} IdStaysFrom(w: World, es: seq<Event>)
    requires AllCurrent(w) && AlwaysEchoes(w, es)
    ensures AllCurrent(Run(w, es)) && (w.row.checkRunId.Some? ==> Run(w, es).row == w.row)
    decreases |es|
  {
    if es != [] {
      StepKeepsId(w, es[0]);
      AllCurrentKept(w, es[0]);
      hide AllCurrent, Step, Echoes;
      IdStaysFrom(Step(w, es[0]), es[1..]);
    }
  }

  lemma FreshCurrent(w: World)
    requires Fresh(w)
    ensures AllCurrent(w)
  {
    FreshBase(w);
  }

  /** As long as GitHub echoes ids, the first id that the row gets is the one it keeps, whatever stalls or crashes. */
  lemma FirstIdStays(w: World, es: seq<Event>, fs: seq<Event>)
    requires Fresh(w) && AlwaysEchoes(w, es) && AlwaysEchoes(Run(w, es), fs) && Run(w, es).row.checkRunId.Some?
    ensures Run(Run(w, es), fs).row == Run(w, es).row
  {
    FreshCurrent(w);
    IdStaysFrom(w, es);
    IdStaysFrom(Run(w, es), fs);
  }
}
