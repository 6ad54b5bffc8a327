/**
 What holds over whole runs of the queue protocol, whatever the interleaving: the limits,
 the fate of a row, the number of claims, who is the live claimant, and progress.
 */
module RunProtocol {
  import opened Wrappers
  import opened RunQueue

  ghost predicate SensibleLimits(config: Config) {
    config.maximumQueued >= 0 && config.maximumStored >= 0
  }

  // ------------------------------------------------------------ every state

  lemma EmptyKeeps(config: Config, now: int)
    requires SensibleLimits(config)
    ensures Invariant(config, Empty(now))
  {
    assert ActiveIds(Empty(now).rows) == {};
  }

  /** Queued and running runs and stored runs stay within their limits in every reachable state. */
  lemma {:induction false} EveryStateWithinLimits(config: Config, states: seq<Queue>, steps: seq<Step>, i: nat)
    requires SensibleLimits(config) && IsTrace(config, states, steps) && i < |states|
    ensures Invariant(config, states[i])
  {
    if i == 0 {
      var now :| states[0] == Empty(now);
      EmptyKeeps(config, now);
    } else {
      EveryStateWithinLimits(config, states, steps, i - 1);
      assert StepAt(config, states, steps, i - 1);
      StepKeepsInvariant(config, states[i - 1], steps[i - 1]);
    }
  }

  // ---------------------------------------------------------- fate of a row

  /** A row keeps what was submitted, and is left alone, claimed once more, or settled. */
  predicate Moves(row: Row, next: Row) {
    && next.submission == row.submission && next.createdAt == row.createdAt
    && (next == row
        || (Active(row) && next.status.Running? && next.attempts == row.attempts + 1 <= MAX_ATTEMPTS)
        || (row.status.Running? && Terminal(next) && next.attempts == row.attempts))
  }

  /** What one step may do to a row that stays, and to one that goes. */
  lemma StepOnRow(config: Config, q: Queue, step: Step, id: nat)
    requires Invariant(config, q) && Enabled(config, q, step) && id in q.rows
    ensures var next := Next(config, q, step);
            && (id !in next.rows ==> Terminal(q.rows[id]) && (step.Commit? || step.DeleteExpired?))
            && (id in next.rows ==> Moves(q.rows[id], next.rows[id]))
  {
    assert RowOk(config, q.rows[id]);
    if step.Commit? {
      assert id in q.used;
    }
  }

  lemma StepOnUsed(config: Config, q: Queue, step: Step, id: nat)
    requires Invariant(config, q) && Enabled(config, q, step) && id in q.used && id !in q.rows
    ensures id in Next(config, q, step).used && id !in Next(config, q, step).rows
  {
    if step.ClaimRun? {
      assert step.id in q.rows;
    }
  }

  /** The same along a run: ids stay used, settled rows stay as they are, and what is gone stays gone. */
  lemma TraceStepOnRow(config: Config, states: seq<Queue>, steps: seq<Step>, i: nat, id: nat)
    requires SensibleLimits(config) && IsTrace(config, states, steps) && i < |steps|
    ensures id in states[i].rows ==> id in states[i].used
    ensures id in states[i].used ==> id in states[i + 1].used
    ensures id in states[i].used && id !in states[i].rows ==> id !in states[i + 1].rows
    ensures id in states[i].rows && id in states[i + 1].rows ==>
              states[i + 1].rows[id].submission == states[i].rows[id].submission
    ensures id in states[i].rows && id in states[i + 1].rows && Terminal(states[i].rows[id]) ==>
              states[i + 1].rows[id] == states[i].rows[id]
  {
    EveryStateWithinLimits(config, states, steps, i);
    assert StepAt(config, states, steps, i);
    if id in states[i].rows {
      StepOnRow(config, states[i], steps[i], id);
    } else if id in states[i].used {
      StepOnUsed(config, states[i], steps[i], id);
    }
  }

  lemma RowIsUsed(config: Config, states: seq<Queue>, steps: seq<Step>, i: nat, id: nat)
    requires SensibleLimits(config) && IsTrace(config, states, steps) && i < |states| && id in states[i].rows
    ensures id in states[i].used
  {
    EveryStateWithinLimits(config, states, steps, i);
  }

  /** A completed or failed run keeps its row unchanged for as long as the row exists, and once gone it stays gone. */
  lemma {:induction false} TerminalIsAbsorbing(config: Config, states: seq<Queue>, steps: seq<Step>, i: nat, j: nat,
                                               id: nat)
    requires SensibleLimits(config) && IsTrace(config, states, steps) && i <= j < |states|
    requires id in states[i].rows && Terminal(states[i].rows[id])
    ensures id in states[j].rows ==> states[j].rows[id] == states[i].rows[id]
    ensures id in states[j].used
    decreases j - i
  {
    RowIsUsed(config, states, steps, i, id);
    if i < j {
      TerminalIsAbsorbing(config, states, steps, i, j - 1, id);
      TraceStepOnRow(config, states, steps, j - 1, id);
    }
  }

  /** A run is only ever removed, by eviction or retention, after it has settled. */
  lemma OnlySettledRunsAreRemoved(config: Config, states: seq<Queue>, steps: seq<Step>, i: nat, id: nat)
    requires SensibleLimits(config) && IsTrace(config, states, steps) && i < |steps|
    requires id in states[i].rows && id !in states[i + 1].rows
    ensures Terminal(states[i].rows[id]) && (steps[i].Commit? || steps[i].DeleteExpired?)
  {
    EveryStateWithinLimits(config, states, steps, i);
    assert StepAt(config, states, steps, i);
    StepOnRow(config, states[i], steps[i], id);
  }

  /** Whatever worker wrote it, live or stale, a completed run holds the canonical result of what was submitted. */
  lemma CompletedHoldsCanonicalResult(config: Config, states: seq<Queue>, steps: seq<Step>, i: nat, j: nat, id: nat)
    requires SensibleLimits(config) && IsTrace(config, states, steps) && i <= j < |states|
    requires id in states[i].rows && id in states[j].rows && states[j].rows[id].status.Completed?
    ensures states[j].rows[id].result == Some(config.canonical(states[i].rows[id].submission))
  {
    SubmissionStays(config, states, steps, i, j, id);
    EveryStateWithinLimits(config, states, steps, j);
    assert RowOk(config, states[j].rows[id]);
  }

  lemma {:induction false} SubmissionStays(config: Config, states: seq<Queue>, steps: seq<Step>, i: nat, j: nat,
                                           id: nat)
    requires SensibleLimits(config) && IsTrace(config, states, steps) && i <= j < |states|
    requires id in states[i].rows
    ensures id in states[j].used
    ensures id in states[j].rows ==> states[j].rows[id].submission == states[i].rows[id].submission
    decreases j - i
  {
    RowIsUsed(config, states, steps, i, id);
    if i < j {
      SubmissionStays(config, states, steps, i, j - 1, id);
      TraceStepOnRow(config, states, steps, j - 1, id);
    }
  }

  /** No run is handed out more than three times, counting runs that are gone. */
  lemma AtMostThreeClaims(config: Config, states: seq<Queue>, steps: seq<Step>, i: nat, id: nat)
    requires SensibleLimits(config) && IsTrace(config, states, steps) && i < |states|
    ensures ClaimsOf(states[i].claims, id) <= 3
  {
    EveryStateWithinLimits(config, states, steps, i);
  }

  // -------------------------------------------------------- queue admission

  /**
   Uninterrupted, too few settled rows means that active rows alone fill the table: the
   condition the in-memory store refuses under.
   */
  lemma TooFewSettledIffActiveFill(config: Config, rows: map<nat, Row>)
    ensures |TerminalIds(rows)| < Required(config, |rows|) <==> |ActiveIds(rows)| >= config.maximumStored
  {
    SplitSize(rows);
  }

  /**
   Eviction fails exactly when the table was full when it was counted, and the active rows
   and the rows deleted since then make up the limit.
   */
  lemma EvictionFailsIff(config: Config, q: Queue, doomed: set<nat>)
    requires Invariant(config, q) && Enabled(config, q, Evict(doomed))
    ensures var total := q.holder.value.stage.total;
            AfterEvict(q, doomed).holder.None? <==>
            total >= config.maximumStored && |ActiveIds(q.rows)| + (total - |q.rows|) >= config.maximumStored
    ensures AfterEvict(q, doomed).holder.Some? ==> |doomed| == q.holder.value.stage.required
  {
    SplitSize(q.rows);
  }

  /** While one transaction keeps the lock, only retention changes the number of rows. */
  lemma RowsStayCounted(config: Config, q: Queue, step: Step)
    requires Invariant(config, q) && Enabled(config, q, step)
    requires !step.DeleteExpired? && Next(config, q, step).holder == q.holder && q.holder.Some?
    ensures |Next(config, q, step).rows| == |q.rows|
  {
    var next := Next(config, q, step);
    assert next.rows.Keys == q.rows.Keys;
    assert |next.rows| == |next.rows.Keys| && |q.rows| == |q.rows.Keys|;
  }

  lemma {:induction false} TraceRowsStayCounted(config: Config, states: seq<Queue>, steps: seq<Step>, i: nat, j: nat)
    requires SensibleLimits(config) && IsTrace(config, states, steps) && i <= j < |states| && states[i].holder.Some?
    requires forall k :: i <= k <= j ==> states[k].holder == states[i].holder
    requires forall k :: i <= k < j ==> !steps[k].DeleteExpired?
    ensures |states[j].rows| == |states[i].rows|
    decreases j - i
  {
    if i < j {
      TraceRowsStayCounted(config, states, steps, i, j - 1);
      EveryStateWithinLimits(config, states, steps, j - 1);
      assert StepAt(config, states, steps, j - 1);
      RowsStayCounted(config, states[j - 1], steps[j - 1]);
    }
  }

  /**
   Without retention between its count in step i and its eviction in step j, an admitted
   submission finds enough to evict.
   */
  lemma EvictionFindsEnough(config: Config, states: seq<Queue>, steps: seq<Step>, i: nat, j: nat)
    requires SensibleLimits(config) && config.maximumQueued <= config.maximumStored
    requires IsTrace(config, states, steps) && i < j < |steps| && steps[i].Count? && steps[j].Evict?
    requires forall k :: i < k <= j ==> states[k].holder == states[i + 1].holder
    requires forall k :: i < k < j ==> !steps[k].DeleteExpired?
    ensures states[j + 1].holder.Some? && |steps[j].doomed| == Required(config, |states[i].rows|)
  {
    EveryStateWithinLimits(config, states, steps, i);
    EveryStateWithinLimits(config, states, steps, j);
    assert StepAt(config, states, steps, i) && StepAt(config, states, steps, j);
    TraceRowsStayCounted(config, states, steps, i + 1, j);
    EvictionFailsIff(config, states[j], steps[j].doomed);
  }

  /**
   A submission is queued, claimed and completed; a month later the next one counts it,
   retention deletes it, and there is nothing to evict.
   */
  const STARVING_STEPS: seq<Step> :=
    [Lock(0), Count, Evict({}), Commit(0, "run"), ClaimRun(0, 45), Complete(0), Tick(30 * 86400 + 1),
     Lock(30 * 86400 + 1), Count, DeleteExpired(30 * 86400), Evict({})]

  ghost function StarvingStates(): seq<Queue> {
    var later := 30 * 86400 + 1;
    var queued := NewRow("run", 0);
    var running := ClaimedRow(queued, 0, 45);
    var done := map[0 := CompletedRow(running, 0, "run")];
    var claims := [Claim(0, 1, "run", 0, 45)];
    [Empty(0),
     Queue(map[], 0, Some(Transaction(0, Locked)), [], {}),
     Queue(map[], 0, Some(Transaction(0, Counted(0, 0))), [], {}),
     Queue(map[], 0, Some(Transaction(0, Evicted({}))), [], {}),
     Queue(map[0 := queued], 0, None, [], {0}),
     Queue(map[0 := running], 0, None, claims, {0}),
     Queue(done, 0, None, claims, {0}),
     Queue(done, later, None, claims, {0}),
     Queue(done, later, Some(Transaction(later, Locked)), claims, {0}),
     Queue(done, later, Some(Transaction(later, Counted(1, 1))), claims, {0}),
     Queue(map[], later, Some(Transaction(later, Counted(1, 1))), claims, {0}),
     Queue(map[], later, None, claims, {0})]
  }

  const ONE_RUN := Config(1, 1, (submission: string) => submission)

  lemma StarvingQueues()
    ensures forall k :: 0 <= k < 3 ==> IsStep(ONE_RUN, StarvingStates()[k], STARVING_STEPS[k], StarvingStates()[k + 1])
  {
    var none: map<nat, Row> := map[];
    assert ActiveIds(none) == {} && TerminalIds(none) == {};
    assert IsEviction(none, 0, {});
    assert IsStep(ONE_RUN, StarvingStates()[0], STARVING_STEPS[0], StarvingStates()[1]);
    assert IsStep(ONE_RUN, StarvingStates()[1], STARVING_STEPS[1], StarvingStates()[2]);
    assert IsStep(ONE_RUN, StarvingStates()[2], STARVING_STEPS[2], StarvingStates()[3]);
  }

  lemma StarvingRuns()
    ensures forall k :: 3 <= k < 5 ==> IsStep(ONE_RUN, StarvingStates()[k], STARVING_STEPS[k], StarvingStates()[k + 1])
  {
    var none: map<nat, Row> := map[];
    assert Without(none, {}) == none;
    assert IsStep(ONE_RUN, StarvingStates()[3], STARVING_STEPS[3], StarvingStates()[4]);
    assert IsStep(ONE_RUN, StarvingStates()[4], STARVING_STEPS[4], StarvingStates()[5]);
  }

  lemma StarvingSettles()
    ensures forall k :: 5 <= k < 8 ==> IsStep(ONE_RUN, StarvingStates()[k], STARVING_STEPS[k], StarvingStates()[k + 1])
  {
    assert IsStep(ONE_RUN, StarvingStates()[5], STARVING_STEPS[5], StarvingStates()[6]);
    assert IsStep(ONE_RUN, StarvingStates()[6], STARVING_STEPS[6], StarvingStates()[7]);
    assert IsStep(ONE_RUN, StarvingStates()[7], STARVING_STEPS[7], StarvingStates()[8]);
  }

  lemma StarvingFails()
    ensures forall k :: 8 <= k < 11 ==> IsStep(ONE_RUN, StarvingStates()[k], STARVING_STEPS[k], StarvingStates()[k + 1])
  {
    var none: map<nat, Row> := map[];
    var done := StarvingStates()[8].rows;
    assert ActiveIds(done) == {} && ActiveIds(none) == {} && TerminalIds(none) == {};
    assert |done| == 1;
    assert IsEviction(none, 1, {});
    assert WithoutExpired(done, 30 * 86400 + 1, 30 * 86400, {}) == none;
    assert IsStep(ONE_RUN, StarvingStates()[8], STARVING_STEPS[8], StarvingStates()[9]);
    assert IsStep(ONE_RUN, StarvingStates()[9], STARVING_STEPS[9], StarvingStates()[10]);
    assert IsStep(ONE_RUN, StarvingStates()[10], STARVING_STEPS[10], StarvingStates()[11]);
  }

  /** In a run of the protocol retention between count and eviction has a submission refused by an empty table. */
  lemma RetentionCanStarveEviction()
    ensures exists config: Config, states: seq<Queue>, steps: seq<Step> ::
              && SensibleLimits(config) && config.maximumQueued <= config.maximumStored
                 && IsTrace(config, states, steps)
              && |steps| > 0 && steps[|steps| - 1].Evict? && states[|steps|].holder.None?
              && states[|steps|].rows == map[] && 0 < config.maximumStored
  {
    StarvingQueues();
    StarvingRuns();
    StarvingSettles();
    StarvingFails();
    var states, steps := StarvingStates(), STARVING_STEPS;
    forall k | 0 <= k < |steps|
      ensures StepAt(ONE_RUN, states, steps, k)
    {
    }
    assert states[0] == Empty(0);
    assert IsTrace(ONE_RUN, states, steps);
  }

  // ------------------------------------------------------------- live claims

  /** Of all claims ever handed out for a run, at most one still has its lease. */
  lemma LiveClaimIsUnique(config: Config, q: Queue, i: nat, j: nat)
    requires Invariant(config, q) && i < |q.claims| && j < |q.claims| && q.claims[i].id == q.claims[j].id
    requires q.now <= q.claims[i].expires && q.now <= q.claims[j].expires
    ensures i == j
  {
    assert ClaimOk(q, q.claims[i]) && ClaimOk(q, q.claims[j]);
  }

  /** Seconds a worker leases a job for: the run time limit rounded up, and fifteen more. */
  function LeaseSeconds(timeoutMilliseconds: nat): nat {
    (timeoutMilliseconds + 999) / 1000 + 15
  }

  /** The lease covers the time limit and fifteen seconds, by less than a second more. */
  lemma LeaseCoversTheTimeout(timeoutMilliseconds: nat, elapsedSeconds: int)
    ensures 1000 * elapsedSeconds <= timeoutMilliseconds + 15000 ==> elapsedSeconds <= LeaseSeconds(timeoutMilliseconds)
    ensures 1000 * LeaseSeconds(timeoutMilliseconds) < timeoutMilliseconds + 16000
  {
  }

  predicate IsWrite(step: Step) {
    step.Complete? || step.Fail?
  }

  function WrittenBy(step: Step): set<nat> {
    if IsWrite(step) then {step.claim} else {}
  }

  /** Claims that some step so far has written with. */
  ghost function Written(steps: seq<Step>): set<nat> {
    if steps == [] then {}
    else Written(steps[..|steps| - 1]) + WrittenBy(steps[|steps| - 1])
  }

  /** Every write so far came before the lease of the writing claim was over. */
  ghost predicate WritesInTime(states: seq<Queue>, steps: seq<Step>)
    requires |states| == |steps| + 1
  {
    forall i :: 0 <= i < |steps| && IsWrite(steps[i]) && steps[i].claim < |states[i].claims| ==>
                  states[i].now <= states[i].claims[steps[i].claim].expires
  }

  /** A claim that has its lease and has not been written with still holds its run. */
  ghost predicate HoldsItsRun(q: Queue, k: nat)
    requires k < |q.claims|
  {
    var claim := q.claims[k];
    && claim.id in q.rows && q.rows[claim.id].status.Running?
    && q.rows[claim.id].attempts == claim.attempt && q.rows[claim.id].lease == Some(claim.expires)
  }

  ghost predicate LiveClaimsHold(q: Queue, written: set<nat>) {
    forall k :: 0 <= k < |q.claims| && k !in written && q.now <= q.claims[k].expires ==> HoldsItsRun(q, k)
  }

  lemma ClaimKeepsLiveClaims(config: Config, q: Queue, id: nat, leaseSeconds: int, written: set<nat>)
    requires Invariant(config, q) && Enabled(config, q, ClaimRun(id, leaseSeconds)) && LiveClaimsHold(q, written)
    ensures LiveClaimsHold(AfterClaim(q, id, leaseSeconds), written)
  {
    var next := AfterClaim(q, id, leaseSeconds);
    forall k | 0 <= k < |next.claims| && k !in written && next.now <= next.claims[k].expires
      ensures HoldsItsRun(next, k)
    {
      if k < |q.claims| {
        assert HoldsItsRun(q, k);
        assert RowOk(config, q.rows[q.claims[k].id]);
      }
    }
  }

  /** Settling a run takes it from a live claim only when that claim itself writes. */
  lemma SettlingKeepsLiveClaims(config: Config, q: Queue, next: Queue, written: set<nat>, writer: Option<nat>)
    requires Invariant(config, q) && LiveClaimsHold(q, written) && OnlySettles(q, next)
    requires writer.Some? ==> writer.value < |q.claims| && q.now <= q.claims[writer.value].expires
    requires forall id :: id in q.rows && q.rows[id].status.Running? && !LeaseOver(q.rows[id], q.now) ==>
                            (id in next.rows && next.rows[id] == q.rows[id])
                                || (writer.Some? && q.claims[writer.value].id == id)
    ensures LiveClaimsHold(next, written + (if writer.Some? then {writer.value} else {}))
  {
    forall k | 0 <= k < |next.claims| && k !in written && next.now <= next.claims[k].expires && writer != Some(k)
      ensures HoldsItsRun(next, k)
    {
      assert HoldsItsRun(q, k);
      if writer.Some? && q.claims[writer.value].id == q.claims[k].id {
        LiveClaimIsUnique(config, q, k, writer.value);
      }
    }
  }

  lemma CommitKeepsLiveClaims(config: Config, q: Queue, id: nat, submission: string, written: set<nat>)
    requires Invariant(config, q) && Enabled(config, q, Commit(id, submission)) && LiveClaimsHold(q, written)
    ensures LiveClaimsHold(AfterCommit(q, id, submission), written)
  {
    var next := AfterCommit(q, id, submission);
    forall k | 0 <= k < |next.claims| && k !in written && next.now <= next.claims[k].expires
      ensures HoldsItsRun(next, k)
    {
      assert HoldsItsRun(q, k) && ClaimOk(q, q.claims[k]);
    }
  }

  lemma SameRowsKeepLiveClaims(q: Queue, next: Queue, written: set<nat>)
    requires LiveClaimsHold(q, written) && next.rows == q.rows && next.claims == q.claims && q.now <= next.now
    ensures LiveClaimsHold(next, written)
  {
    forall k | 0 <= k < |next.claims| && k !in written && next.now <= next.claims[k].expires
      ensures HoldsItsRun(next, k)
    {
      assert HoldsItsRun(q, k);
    }
  }

  lemma WriteKeepsLiveClaims(config: Config, q: Queue, step: Step, written: set<nat>)
    requires Invariant(config, q) && Enabled(config, q, step) && LiveClaimsHold(q, written)
    requires IsWrite(step) && step.claim < |q.claims| && q.now <= q.claims[step.claim].expires
    ensures LiveClaimsHold(Next(config, q, step), written + WrittenBy(step))
  {
    WriteSettles(config, q, step);
    SettlingKeepsLiveClaims(config, q, Next(config, q, step), written, Some(step.claim));
  }

  lemma MaintainKeepsLiveClaims(config: Config, q: Queue, step: Step, written: set<nat>)
    requires Invariant(config, q) && Enabled(config, q, step) && LiveClaimsHold(q, written)
    requires step.FailExhausted? || step.DeleteExpired?
    ensures LiveClaimsHold(Next(config, q, step), written)
  {
    MaintainSettles(config, q, step);
    SettlingKeepsLiveClaims(config, q, Next(config, q, step), written, None);
    assert written + {} == written;
  }

  lemma StepKeepsLiveClaims(config: Config, q: Queue, step: Step, written: set<nat>)
    requires Invariant(config, q) && Enabled(config, q, step) && LiveClaimsHold(q, written)
    requires IsWrite(step) ==> step.claim < |q.claims| && q.now <= q.claims[step.claim].expires
    ensures LiveClaimsHold(Next(config, q, step), written + WrittenBy(step))
  {
    if IsWrite(step) {
      WriteKeepsLiveClaims(config, q, step, written);
    } else {
      assert written + WrittenBy(step) == written;
      if step.FailExhausted? || step.DeleteExpired? {
        MaintainKeepsLiveClaims(config, q, step, written);
      } else if step.ClaimRun? {
        ClaimKeepsLiveClaims(config, q, step.id, step.leaseSeconds, written);
      } else if step.Commit? {
        CommitKeepsLiveClaims(config, q, step.id, step.submission, written);
      } else {
        SameRowsKeepLiveClaims(q, Next(config, q, step), written);
      }
    }
  }

  lemma TraceStepKeepsLiveClaims(config: Config, states: seq<Queue>, steps: seq<Step>, i: nat, written: set<nat>)
    requires SensibleLimits(config) && IsTrace(config, states, steps) && WritesInTime(states, steps) && i < |steps|
    requires LiveClaimsHold(states[i], written)
    ensures LiveClaimsHold(states[i + 1], written + WrittenBy(steps[i]))
  {
    EveryStateWithinLimits(config, states, steps, i);
    assert StepAt(config, states, steps, i);
    StepKeepsLiveClaims(config, states[i], steps[i], written);
  }

  lemma {:induction false} LiveClaimsHoldThroughout(config: Config, states: seq<Queue>, steps: seq<Step>, i: nat)
    requires SensibleLimits(config) && IsTrace(config, states, steps) && WritesInTime(states, steps) && i < |states|
    ensures LiveClaimsHold(states[i], Written(steps[..i]))
  {
    if i > 0 {
      LiveClaimsHoldThroughout(config, states, steps, i - 1);
      TraceStepKeepsLiveClaims(config, states, steps, i - 1, Written(steps[..i - 1]));
      assert steps[..i][..i - 1] == steps[..i - 1];
    }
  }

  /** Every claim so far was leased for the given number of seconds. */
  ghost predicate LeasedFor(q: Queue, leaseSeconds: int) {
    forall k :: 0 <= k < |q.claims| ==> q.claims[k].expires == q.claims[k].at + leaseSeconds
  }

  lemma {:induction false} ClaimsAreLeasedFor(config: Config, states: seq<Queue>, steps: seq<Step>, leaseSeconds: int,
                                              i: nat)
    requires IsTrace(config, states, steps) && i < |states|
    requires forall k :: 0 <= k < |steps| && steps[k].ClaimRun? ==> steps[k].leaseSeconds == leaseSeconds
    ensures LeasedFor(states[i], leaseSeconds)
  {
    if i > 0 {
      ClaimsAreLeasedFor(config, states, steps, leaseSeconds, i - 1);
      assert StepAt(config, states, steps, i - 1);
    }
  }

  /** Every worker leases by the time limit and writes within it and fifteen more seconds of its claim. */
  ghost predicate WorkersKeepTheTimeout(states: seq<Queue>, steps: seq<Step>, timeoutMilliseconds: nat)
    requires |states| == |steps| + 1
  {
    && (forall i :: 0 <= i < |steps| && steps[i].ClaimRun? ==>
        steps[i].leaseSeconds == LeaseSeconds(timeoutMilliseconds))
    && forall i :: 0 <= i < |steps| && IsWrite(steps[i]) && steps[i].claim < |states[i].claims| ==>
                     1000 * (states[i].now - states[i].claims[steps[i].claim].at) <= timeoutMilliseconds + 15000
  }

  /** With the lease computed from the time limit, workers that keep the limit write before their leases are over. */
  lemma KeepingTheTimeoutIsInTime(config: Config, states: seq<Queue>, steps: seq<Step>, timeoutMilliseconds: nat)
    requires IsTrace(config, states, steps) && WorkersKeepTheTimeout(states, steps, timeoutMilliseconds)
    ensures WritesInTime(states, steps)
  {
    forall i | 0 <= i < |steps| && IsWrite(steps[i]) && steps[i].claim < |states[i].claims|
      ensures states[i].now <= states[i].claims[steps[i].claim].expires
    {
      ClaimsAreLeasedFor(config, states, steps, LeaseSeconds(timeoutMilliseconds), i);
      LeaseCoversTheTimeout(timeoutMilliseconds, states[i].now - states[i].claims[steps[i].claim].at);
    }
  }

  /** When all workers write in time, the first write of every claim hits its run. */
  lemma InTimeWriteHits(config: Config, states: seq<Queue>, steps: seq<Step>, i: nat)
    requires SensibleLimits(config) && IsTrace(config, states, steps) && WritesInTime(states, steps)
    requires i < |steps| && IsWrite(steps[i]) && steps[i].claim !in Written(steps[..i])
    ensures steps[i].claim < |states[i].claims| && HoldsItsRun(states[i], steps[i].claim)
    ensures var id := states[i].claims[steps[i].claim].id;
            id in states[i + 1].rows && states[i + 1].rows[id].status
                == (if steps[i].Complete? then Completed else Failed)
  {
    LiveClaimsHoldThroughout(config, states, steps, i);
    assert StepAt(config, states, steps, i);
  }

  /** With leases by the time limit, the first write of a worker that keeps the limit settles its run. */
  lemma PromptWriteHits(config: Config, states: seq<Queue>, steps: seq<Step>, timeoutMilliseconds: nat, i: nat)
    requires SensibleLimits(config) && IsTrace(config, states, steps)
             && WorkersKeepTheTimeout(states, steps, timeoutMilliseconds)
    requires i < |steps| && IsWrite(steps[i]) && steps[i].claim !in Written(steps[..i])
    ensures steps[i].claim < |states[i].claims| && HoldsItsRun(states[i], steps[i].claim)
    ensures forall k :: 0 <= k < |states[i].claims| && k != steps[i].claim
                        && states[i].claims[k].id == states[i].claims[steps[i].claim].id ==>
                          states[i].claims[k].expires < states[i].now
  {
    KeepingTheTimeoutIsInTime(config, states, steps, timeoutMilliseconds);
    InTimeWriteHits(config, states, steps, i);
    EveryStateWithinLimits(config, states, steps, i);
    forall k | 0 <= k < |states[i].claims| && k != steps[i].claim
        && states[i].claims[k].id == states[i].claims[steps[i].claim].id
      ensures states[i].claims[k].expires < states[i].now
    {
      if states[i].now <= states[i].claims[k].expires {
        LiveClaimIsUnique(config, states[i], k, steps[i].claim);
      }
    }
  }

  // ---------------------------------------------------------------- progress

  /** A run nobody holds can always be claimed, or be failed for good by maintenance. */
  lemma UnheldRunCanProceed(config: Config, q: Queue, id: nat, leaseSeconds: nat)
    requires Invariant(config, q) && id in q.rows && !Terminal(q.rows[id])
    requires q.rows[id].lease.None? || LeaseOver(q.rows[id], q.now)
    ensures Enabled(config, q, ClaimRun(id, leaseSeconds)) || Terminal(Next(config, q, FailExhausted).rows[id])
  {
    assert RowOk(config, q.rows[id]);
  }

  /** How far a run is from being settled: four steps when queued, none when completed or failed. */
  function Distance(row: Row): int {
    if Terminal(row) then 0 else 1 + MAX_ATTEMPTS - row.attempts
  }

  /** No step takes a run further from its end; claiming, settling or failing it brings it nearer. */
  lemma StepsLeadToTheEnd(config: Config, q: Queue, step: Step, id: nat)
    requires Invariant(config, q) && Enabled(config, q, step) && id in q.rows && id in Next(config, q, step).rows
    ensures var row, next := q.rows[id], Next(config, q, step).rows[id];
            && 0 <= Distance(next) <= Distance(row) <= 1 + MAX_ATTEMPTS
            && (Distance(next) == Distance(row) <==> next == row)
            && (Distance(row) == 0 <==> Terminal(row))
  {
    assert RowOk(config, q.rows[id]);
    StepOnRow(config, q, step, id);
  }

  /** Steps of a trace that change the row of a run. */
  ghost function Changes(states: seq<Queue>, id: nat, i: nat, j: nat): nat
    requires i <= j < |states|
    decreases j - i
  {
    if i == j then 0
    else
      Changes(states, id, i, j - 1)
      + (if id in states[j - 1].rows && id in states[j].rows && states[j].rows[id] != states[j - 1].rows[id] then 1
         else 0)
  }

  lemma StepNearsTheEnd(config: Config, states: seq<Queue>, steps: seq<Step>, i: nat, id: nat)
    requires SensibleLimits(config) && IsTrace(config, states, steps) && i < |steps|
    requires id in states[i].rows && id in states[i + 1].rows
    ensures 0 <= Distance(states[i + 1].rows[id])
    ensures Distance(states[i + 1].rows[id]) + (if states[i + 1].rows[id] != states[i].rows[id] then 1 else 0)
            <= Distance(states[i].rows[id]) <= 4
  {
    EveryStateWithinLimits(config, states, steps, i);
    assert StepAt(config, states, steps, i);
    StepsLeadToTheEnd(config, states[i], steps[i], id);
  }

  lemma DistanceInRange(config: Config, states: seq<Queue>, steps: seq<Step>, i: nat, id: nat)
    requires SensibleLimits(config) && IsTrace(config, states, steps) && i < |states| && id in states[i].rows
    ensures 0 <= Distance(states[i].rows[id]) <= 4
  {
    EveryStateWithinLimits(config, states, steps, i);
    assert RowOk(config, states[i].rows[id]);
  }

  /** How far the run still is from its end, nothing once its row is gone. */
  ghost function Left(q: Queue, id: nat): int {
    if id in q.rows then Distance(q.rows[id]) else 0
  }

  /** After it was queued, a run changes at most four times: three claims and the end. */
  lemma {:induction false} AtMostFourChanges(config: Config, states: seq<Queue>, steps: seq<Step>, id: nat, i: nat,
                                             j: nat)
    requires SensibleLimits(config) && IsTrace(config, states, steps) && i <= j < |states| && id in states[i].rows
    ensures id in states[j].used && 0 <= Left(states[j], id)
    ensures Changes(states, id, i, j) + Left(states[j], id) <= Distance(states[i].rows[id]) <= 4
    decreases j - i
  {
    RowIsUsed(config, states, steps, i, id);
    DistanceInRange(config, states, steps, i, id);
    if i < j {
      AtMostFourChanges(config, states, steps, id, i, j - 1);
      TraceStepOnRow(config, states, steps, j - 1, id);
      if id in states[j - 1].rows && id in states[j].rows {
        StepNearsTheEnd(config, states, steps, j - 1, id);
      }
    }
  }
}
