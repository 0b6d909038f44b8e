/**
 * A claim column: a process reads its clock and then claims the row by an UPDATE that writes the reading
 * into the column, which succeeds only while the column is null or holds a claim older than the time to
 * live. The written second is the holder's token. Any time may pass between the reading and the UPDATE.
 */
module Lease {
  import opened Prelude

  const CLAIM_TTL_SECONDS: nat := 120

  type Process = nat

  predicate Claimable(claimedAt: Option<int>, now: int) {
    claimedAt.None? || claimedAt.value < now - CLAIM_TTL_SECONDS
  }

  /** The column after a holder's own write, which takes effect only on its own token. */
  function Cleared(claimedAt: Option<int>, token: int): Option<int> {
    if claimedAt == Some(token) then None else claimedAt
  }

  /** The column, the clock, and the token of every process that obtained a claim and has not finished. */
  datatype Lease = Lease(column: Option<int>, clock: int, tokens: map<Process, int>)

  datatype Act =
    | Wait(seconds: nat)
    | Take(p: Process, reading: int)   // a claim that succeeds, of a clock reading of any age
    | Clear(p: Process)                // a holder's last write: it persists or releases
    | Drop(p: Process)                 // a holder vanishes
    | Stutter

  predicate Legal(l: Lease, a: Act) {
    match a
    case Take(p, reading) => p !in l.tokens && reading <= l.clock && Claimable(l.column, reading)
    case Clear(p) => p in l.tokens
    case _ => true
  }

  function Apply(l: Lease, a: Act): Lease
    requires Legal(l, a)
  {
    match a
    case Wait(seconds) => l.(clock := l.clock + seconds)
    case Take(p, reading) => l.(column := Some(reading), tokens := l.tokens[p := reading])
    case Clear(p) => l.(column := Cleared(l.column, l.tokens[p]), tokens := l.tokens - {p})
    case Drop(p) => l.(tokens := l.tokens - {p})
    case Stutter => l
  }

  predicate LegalRun(l: Lease, acts: seq<Act>)
    decreases |acts|
  {
    acts == [] || (Legal(l, acts[0]) && LegalRun(Apply(l, acts[0]), acts[1..]))
  }

  function ApplyAll(l: Lease, acts: seq<Act>): Lease
    requires LegalRun(l, acts)
    decreases |acts|
  {
    if acts == [] then l else ApplyAll(Apply(l, acts[0]), acts[1..])
  }

  /** A claim that lands at most `delay` seconds after its clock reading. */
  predicate Prompt(l: Lease, a: Act, delay: int) {
    a.Take? ==> l.clock <= a.reading + delay
  }

  /** Every claim of the run is that prompt. */
  predicate AllPrompt(l: Lease, acts: seq<Act>, delay: int)
    requires LegalRun(l, acts)
    decreases |acts|
  {
    acts == [] || (Prompt(l, acts[0], delay) && AllPrompt(Apply(l, acts[0]), acts[1..], delay))
  }

  /** Live holders: each token is its holder's alone, and is either in the column or long expired. */
  ghost predicate Leased(l: Lease) {
    && (l.column.Some? ==> l.column.value <= l.clock)
    && (forall p :: p in l.tokens ==>
          l.tokens[p] <= l.clock && (l.column == Some(l.tokens[p]) || l.tokens[p] + CLAIM_TTL_SECONDS < l.clock))
    && (forall p, q :: p in l.tokens && q in l.tokens && p != q ==> l.tokens[p] != l.tokens[q])
  }

  lemma ApplyKeeps(l: Lease, a: Act)
    requires Leased(l) && Legal(l, a) && Prompt(l, a, CLAIM_TTL_SECONDS)
    ensures Leased(Apply(l, a))
  {
  }

  lemma {:induction false} RunKeeps(l: Lease, acts: seq<Act>)
    requires Leased(l) && LegalRun(l, acts) && AllPrompt(l, acts, CLAIM_TTL_SECONDS)
    ensures Leased(ApplyAll(l, acts))
    decreases |acts|
  {
    if acts != [] {
      ApplyKeeps(l, acts[0]);
      hide Leased, Apply, Legal, Prompt;
      RunKeeps(Apply(l, acts[0]), acts[1..]);
    }
  }

  // ----- Superseded holders -----

  /** The holder's token is no longer in the column: another process has taken the claim over. */
  predicate Superseded(l: Lease, p: Process) {
    p in l.tokens && l.column != Some(l.tokens[p])
  }

  /** A token that has left the column and has expired. Prompt claims write nothing as old, so it never returns. */
  predicate Stale(l: Lease, token: int) {
    l.column != Some(token) && token + CLAIM_TTL_SECONDS < l.clock
  }

  lemma {:induction false} StaleStays(l: Lease, acts: seq<Act>, token: int)
    requires Stale(l, token) && LegalRun(l, acts) && AllPrompt(l, acts, CLAIM_TTL_SECONDS)
    ensures Stale(ApplyAll(l, acts), token)
    decreases |acts|
  {
    if acts != [] {
      StaleStays(Apply(l, acts[0]), acts[1..], token);
    }
  }

  /** Once a holder's claim is taken over, its token never comes back if claims are prompt. */
  lemma SupersededStays(l: Lease, acts: seq<Act>, p: Process)
    requires Leased(l) && Superseded(l, p)
    requires LegalRun(l, acts) && AllPrompt(l, acts, CLAIM_TTL_SECONDS)
    ensures ApplyAll(l, acts).column != Some(l.tokens[p])
  {
    StaleStays(l, acts, l.tokens[p]);
  }

  // ----- Holders that finish in time -----

  /** Every holder is within `limit` seconds of its clock reading. */
  ghost predicate InTime(l: Lease, limit: int) {
    forall p :: p in l.tokens ==> l.clock <= l.tokens[p] + limit
  }

  /** At every state of the run. */
  ghost predicate Timely(l: Lease, acts: seq<Act>, limit: int)
    requires LegalRun(l, acts)
    decreases |acts|
  {
    InTime(l, limit) && (acts == [] || Timely(Apply(l, acts[0]), acts[1..], limit))
  }

  /** Holders in time have claimed promptly, and at the end they are still in time. */
  lemma {:induction false} TimelyIsPrompt(l: Lease, acts: seq<Act>, limit: int)
    requires LegalRun(l, acts) && Timely(l, acts, limit)
    ensures AllPrompt(l, acts, limit) && InTime(ApplyAll(l, acts), limit)
    decreases |acts|
  {
    if acts != [] {
      if acts[0].Take? {
        assert acts[0].p in Apply(l, acts[0]).tokens;
      }
      TimelyIsPrompt(Apply(l, acts[0]), acts[1..], limit);
    }
  }

  predicate Alone(tokens: map<Process, int>) {
    forall p, q :: p in tokens && q in tokens ==> p == q
  }

  /** Holders within the time to live exclude each other, and the column refuses further claims. */
  lemma Exclusive(l: Lease)
    requires Leased(l) && InTime(l, CLAIM_TTL_SECONDS)
    ensures Alone(l.tokens)
    ensures forall p :: p in l.tokens ==> l.column == Some(l.tokens[p]) && !Claimable(l.column, l.clock)
  {
  }

  lemma HoldersExclude(l: Lease, acts: seq<Act>)
    requires Leased(l) && LegalRun(l, acts) && Timely(l, acts, CLAIM_TTL_SECONDS)
    ensures Alone(ApplyAll(l, acts).tokens)
  {
    TimelyIsPrompt(l, acts, CLAIM_TTL_SECONDS);
    RunKeeps(l, acts);
    Exclusive(ApplyAll(l, acts));
  }

  /** A run in which holders take at most `limit` seconds, from a row that nobody holds. */
  ghost predicate Bounded(l: Lease, acts: seq<Act>, limit: nat) {
    l.tokens == map[] && Leased(l) && LegalRun(l, acts) && Timely(l, acts, limit)
  }

  /** A limit on how long holders take keeps them apart exactly when it is at most the time to live. */
  lemma ExclusionLimit(limit: nat)
    ensures (forall l, acts :: Bounded(l, acts, limit) ==> Alone(ApplyAll(l, acts).tokens))
       <==> limit <= CLAIM_TTL_SECONDS
  {
    if limit <= CLAIM_TTL_SECONDS {
      forall l, acts | Bounded(l, acts, limit) ensures Alone(ApplyAll(l, acts).tokens) {
        TimelyShorter(l, acts, limit);
        HoldersExclude(l, acts);
      }
    } else {
      var l := Lease(None, 0, map[]);
      var acts := [Take(0, 0), Wait(CLAIM_TTL_SECONDS + 1), Take(1, CLAIM_TTL_SECONDS + 1)];
      var held := Apply(l, acts[0]);
      var late := Apply(held, acts[1]);
      assert acts[1..][1..] == [acts[2]] && acts[1..][0] == acts[1];
      LastStep(late, acts[2], limit);
      assert Bounded(l, acts, limit);
      var end := ApplyAll(l, acts);
      assert end == ApplyAll(held, acts[1..]) == ApplyAll(late, [acts[2]]);
      assert 0 in end.tokens && 1 in end.tokens && !Alone(end.tokens);
    }
  }

  lemma LastStep(l: Lease, a: Act, limit: int)
    requires Legal(l, a) && InTime(l, limit) && InTime(Apply(l, a), limit)
    ensures LegalRun(l, [a]) && Timely(l, [a], limit) && ApplyAll(l, [a]) == Apply(l, a)
  {
    assert [a][1..] == [];
  }

  lemma {:induction false} PromptShorter(l: Lease, acts: seq<Act>, delay: int)
    requires LegalRun(l, acts) && AllPrompt(l, acts, delay) && delay <= CLAIM_TTL_SECONDS
    ensures AllPrompt(l, acts, CLAIM_TTL_SECONDS)
    decreases |acts|
  {
    if acts != [] {
      PromptShorter(Apply(l, acts[0]), acts[1..], delay);
    }
  }

  lemma {:induction false} TimelyShorter(l: Lease, acts: seq<Act>, limit: int)
    requires LegalRun(l, acts) && Timely(l, acts, limit) && limit <= CLAIM_TTL_SECONDS
    ensures Timely(l, acts, CLAIM_TTL_SECONDS)
    decreases |acts|
  {
    if acts != [] {
      TimelyShorter(Apply(l, acts[0]), acts[1..], limit);
    }
  }

  /** There is always a process that nobody has heard of. */
  lemma Unused(used: set<Process>) returns (p: Process)
    ensures p !in used
  {
    p := Above(used);
  }

  lemma {:induction false} Above(used: set<Process>) returns (p: Process)
    ensures forall q :: q in used ==> q < p
    decreases |used|
  {
    if used == {} {
      p := 0;
    } else {
      var q :| q in used;
      var rest := Above(used - {q});
      p := rest + q + 1;
      forall x | x in used ensures x < p {
        assert x == q || x in used - {q};
      }
    }
  }
}
