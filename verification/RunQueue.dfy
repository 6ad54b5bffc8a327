/**
 The life of a canonical run as an interleaved protocol over one table: the statements
 of the API's `queueRun` under its advisory lock, and the statements with which workers
 claim, complete, fail and clean up. Every statement is one step; anything may happen
 between two statements. `complete` and `fail` carry no claim token, so any worker that
 ever claimed a run may write it at any later time.
 */
module RunQueue {
  import opened Collections
  import opened Wrappers

  datatype Status = Queued | Running | Completed | Failed

  datatype Failure = Failure(code: string, message: string)

  datatype Row = Row(
    status: Status, submission: string, result: Option<string>, failure: Option<Failure>,
    attempts: nat, lease: Option<int>, createdAt: int, startedAt: Option<int>, completedAt: Option<int>)

  /** The queue limits of the API and the deterministic engine every worker runs. */
  datatype Config = Config(maximumQueued: int, maximumStored: int, canonical: string -> string)

  datatype Stage = Locked | Counted(total: nat, required: nat) | Evicted(doomed: set<nat>)

  /** The one transaction that holds the advisory lock. */
  datatype Transaction = Transaction(startedAt: int, stage: Stage)

  /** A job handed to a worker; it stays valid in the worker's hands whatever happens to the row. */
  datatype Claim = Claim(id: nat, attempt: nat, submission: string, at: int, expires: int)

  /** `used` are the ids ever inserted, `claims` the claims ever handed out. */
  datatype Queue = Queue(rows: map<nat, Row>, now: int, holder: Option<Transaction>, claims: seq<Claim>, used: set<nat>)

  datatype Step =
    | Tick(time: int)
    | Lock(startedAt: int)
    | Count
    | Evict(doomed: set<nat>)
    | Commit(id: nat, submission: string)
    | Abort
    | ClaimRun(id: nat, leaseSeconds: int)
    | Complete(claim: nat)
    | Fail(claim: nat, failure: Failure)
    | FailExhausted
    | DeleteExpired(retention: int)

  const MAX_ATTEMPTS := 3

  const LEASE_EXHAUSTED := Failure("lease_exhausted", "The canonical worker lease expired after three attempts.")

  // ------------------------------------------------------------- the table

  predicate Active(row: Row) {
    row.status.Queued? || row.status.Running?
  }

  predicate Terminal(row: Row) {
    row.status.Completed? || row.status.Failed?
  }

  function ActiveIds(rows: map<nat, Row>): (ids: set<nat>)
    ensures ids <= rows.Keys
  {
    set id | id in rows && Active(rows[id])
  }

  function TerminalIds(rows: map<nat, Row>): (ids: set<nat>)
    ensures ids <= rows.Keys
  {
    set id | id in rows && Terminal(rows[id])
  }

  predicate LeaseOver(row: Row, now: int) {
    row.lease.Some? && row.lease.value < now
  }

  predicate Claimable(row: Row, now: int) {
    (row.status.Queued? || (row.status.Running? && LeaseOver(row, now))) && row.attempts < MAX_ATTEMPTS
  }

  predicate Exhausted(row: Row, now: int) {
    row.status.Running? && row.attempts >= MAX_ATTEMPTS && LeaseOver(row, now)
  }

  predicate Expired(row: Row, now: int, retention: int) {
    row.completedAt.Some? && row.completedAt.value < now - retention
  }

  /** ORDER BY completed_at ASC NULLS LAST, created_at ASC. */
  predicate EvictedBefore(x: Row, y: Row) {
    if x.completedAt.Some? && y.completedAt.Some? then
      x.completedAt.value < y.completedAt.value || (x.completedAt == y.completedAt && x.createdAt < y.createdAt)
    else if x.completedAt.None? && y.completedAt.None? then x.createdAt < y.createdAt
    else x.completedAt.Some?
  }

  function NewRow(submission: string, createdAt: int): Row {
    Row(Queued, submission, None, None, 0, None, createdAt, None, None)
  }

  function ClaimedRow(row: Row, now: int, leaseSeconds: int): Row {
    row.(status := Running, attempts := row.attempts + 1,
         startedAt := if row.startedAt.Some? then row.startedAt else Some(now), lease := Some(now + leaseSeconds))
  }

  function CompletedRow(row: Row, now: int, result: string): Row {
    row.(status := Completed, result := Some(result), completedAt := Some(now), lease := None)
  }

  function FailedRow(row: Row, now: int, failure: Failure): Row {
    row.(status := Failed, failure := Some(failure), completedAt := Some(now), lease := None)
  }

  /** Settling writes touch the row only while it is running. */
  function WriteCompleted(rows: map<nat, Row>, id: nat, now: int, result: string): map<nat, Row> {
    if id in rows && rows[id].status.Running? then rows[id := CompletedRow(rows[id], now, result)] else rows
  }

  function WriteFailed(rows: map<nat, Row>, id: nat, now: int, failure: Failure): map<nat, Row> {
    if id in rows && rows[id].status.Running? then rows[id := FailedRow(rows[id], now, failure)] else rows
  }

  function WithExhaustedFailed(rows: map<nat, Row>, now: int): (r: map<nat, Row>)
    ensures r.Keys == rows.Keys
  {
    map id | id in rows :: if Exhausted(rows[id], now) then FailedRow(rows[id], now, LEASE_EXHAUSTED) else rows[id]
  }

  /** Rows an open transaction has deleted are locked: the statement waits, and they are gone when it goes on. */
  function LockedIds(holder: Option<Transaction>): set<nat> {
    if holder.Some? && holder.value.stage.Evicted? then holder.value.stage.doomed else {}
  }

  function WithoutExpired(rows: map<nat, Row>, now: int, retention: int, locked: set<nat>): (r: map<nat, Row>)
    ensures r.Keys <= rows.Keys && forall id :: id in r ==> r[id] == rows[id]
  {
    map id | id in rows && (id in locked || !Expired(rows[id], now, retention)) :: rows[id]
  }

  function Without(rows: map<nat, Row>, ids: set<nat>): (r: map<nat, Row>)
    ensures r.Keys == rows.Keys - ids && forall id :: id in r ==> r[id] == rows[id]
  {
    map id | id in rows && id !in ids :: rows[id]
  }

  function Required(config: Config, total: nat): nat {
    if total - config.maximumStored + 1 > 0 then total - config.maximumStored + 1 else 0
  }

  // ------------------------------------------------------------- the steps

  ghost predicate Enabled(config: Config, q: Queue, step: Step) {
    match step
    case Tick(time) => q.now <= time
    case Lock(startedAt) => q.holder.None? && startedAt <= q.now
    case Count => q.holder.Some? && q.holder.value.stage.Locked?
    case Evict(doomed) => q.holder.Some? && q.holder.value.stage.Counted?
        && IsEviction(q.rows, q.holder.value.stage.required, doomed)
    case Commit(id, _) => q.holder.Some? && q.holder.value.stage.Evicted? && id !in q.used
    case Abort => q.holder.Some?
    case ClaimRun(id, leaseSeconds) => id in q.rows && Claimable(q.rows[id], q.now) && leaseSeconds >= 0
    case Complete(k) => k < |q.claims|
    case Fail(k, _) => k < |q.claims|
    case FailExhausted => true
    case DeleteExpired(retention) => retention >= 0
  }

  /** The first `required` terminal rows in eviction order, or all of them when there are fewer. */
  ghost predicate IsEviction(rows: map<nat, Row>, required: nat, doomed: set<nat>) {
    && doomed <= TerminalIds(rows)
    && |doomed| == (if |TerminalIds(rows)| < required then |TerminalIds(rows)| else required)
    && forall d, id :: d in doomed && id in TerminalIds(rows) - doomed ==> !EvictedBefore(rows[id], rows[d])
  }

  function AfterCount(config: Config, q: Queue): Queue
    requires q.holder.Some?
  {
    if |ActiveIds(q.rows)| >= config.maximumQueued then q.(holder := None)
    else q.(holder := Some(q.holder.value.(stage := Counted(|q.rows|, Required(config, |q.rows|)))))
  }

  function AfterEvict(q: Queue, doomed: set<nat>): Queue
    requires q.holder.Some? && q.holder.value.stage.Counted?
  {
    if |doomed| < q.holder.value.stage.required then q.(holder := None)
    else q.(holder := Some(q.holder.value.(stage := Evicted(doomed))))
  }

  function AfterCommit(q: Queue, id: nat, submission: string): Queue
    requires q.holder.Some? && q.holder.value.stage.Evicted?
  {
    Queue(Without(q.rows, q.holder.value.stage.doomed)[id := NewRow(submission, q.holder.value.startedAt)],
          q.now, None, q.claims, q.used + {id})
  }

  function AfterClaim(q: Queue, id: nat, leaseSeconds: int): Queue
    requires id in q.rows
  {
    var row := ClaimedRow(q.rows[id], q.now, leaseSeconds);
    q.(rows := q.rows[id := row],
       claims := q.claims + [Claim(id, row.attempts, row.submission, q.now, q.now + leaseSeconds)])
  }

  ghost function Next(config: Config, q: Queue, step: Step): Queue
    requires Enabled(config, q, step)
  {
    match step
    case Tick(time) => q.(now := time)
    case Lock(startedAt) => q.(holder := Some(Transaction(startedAt, Locked)))
    case Count => AfterCount(config, q)
    case Evict(doomed) => AfterEvict(q, doomed)
    case Commit(id, submission) => AfterCommit(q, id, submission)
    case Abort => q.(holder := None)
    case ClaimRun(id, leaseSeconds) => AfterClaim(q, id, leaseSeconds)
    case Complete(k) =>
      q.(rows := WriteCompleted(q.rows, q.claims[k].id, q.now, config.canonical(q.claims[k].submission)))
    case Fail(k, failure) => q.(rows := WriteFailed(q.rows, q.claims[k].id, q.now, failure))
    case FailExhausted => q.(rows := WithExhaustedFailed(q.rows, q.now))
    case DeleteExpired(retention) => q.(rows := WithoutExpired(q.rows, q.now, retention, LockedIds(q.holder)))
  }

  function Empty(now: int): Queue {
    Queue(map[], now, None, [], {})
  }

  /** A run of the protocol: every state follows from the one before by an enabled step. */
  ghost predicate IsTrace(config: Config, states: seq<Queue>, steps: seq<Step>) {
    && |states| == |steps| + 1 && (exists now :: states[0] == Empty(now))
    && forall i :: 0 <= i < |steps| ==> StepAt(config, states, steps, i)
  }

  ghost predicate StepAt(config: Config, states: seq<Queue>, steps: seq<Step>, i: int)
    requires |states| == |steps| + 1 && 0 <= i < |steps|
  {
    IsStep(config, states[i], steps[i], states[i + 1])
  }

  ghost predicate IsStep(config: Config, q: Queue, step: Step, next: Queue) {
    Enabled(config, q, step) && next == Next(config, q, step)
  }

  // ------------------------------------------------------------- invariant

  ghost predicate RowOk(config: Config, row: Row) {
    && (row.status.Queued? <==> row.attempts == 0) && row.attempts <= MAX_ATTEMPTS
    && (row.lease.Some? <==> row.status.Running?)
    && (row.completedAt.Some? <==> Terminal(row))
    && (row.result.Some? <==> row.status.Completed?)
    && (row.status.Completed? ==> row.result == Some(config.canonical(row.submission)))
  }

  ghost predicate RowsOk(config: Config, q: Queue) {
    q.rows.Keys <= q.used && forall id :: id in q.rows ==> RowOk(config, q.rows[id])
  }

  /** What the lock holder has established stays good for the steps it still takes. */
  ghost predicate HolderOk(config: Config, q: Queue) {
    match q.holder
    case None => true
    case Some(transaction) =>
      match transaction.stage
      case Locked => true
      case Counted(total, required) =>
        && |ActiveIds(q.rows)| < config.maximumQueued
        && |q.rows| <= total && required == Required(config, total)
      case Evicted(doomed) =>
        && |ActiveIds(q.rows)| < config.maximumQueued
        && doomed <= TerminalIds(q.rows) && |q.rows| - |doomed| < config.maximumStored
  }

  ghost predicate WithinLimits(config: Config, q: Queue) {
    |ActiveIds(q.rows)| <= config.maximumQueued && |q.rows| <= config.maximumStored
  }

  ghost function ClaimsOf(claims: seq<Claim>, id: nat): nat {
    if claims == [] then 0 else ClaimsOf(claims[..|claims| - 1], id) + (if claims[|claims| - 1].id == id then 1 else 0)
  }

  /** A claim knows the submission of its run, and while the run is running no claim outlives its lease. */
  ghost predicate ClaimOk(q: Queue, claim: Claim) {
    && claim.id in q.used && claim.at <= q.now && claim.at <= claim.expires
    && (claim.id in q.rows ==>
          && claim.submission == q.rows[claim.id].submission && claim.attempt <= q.rows[claim.id].attempts
          && (q.rows[claim.id].status.Running? ==>
              q.rows[claim.id].lease.Some? && claim.expires <= q.rows[claim.id].lease.value))
  }

  ghost predicate ClaimsOk(q: Queue) {
    && (forall k :: 0 <= k < |q.claims| ==> ClaimOk(q, q.claims[k]))
    && (forall id :: ClaimsOf(q.claims, id) <= MAX_ATTEMPTS)
    && (forall id :: id in q.rows ==> ClaimsOf(q.claims, id) == q.rows[id].attempts)
    && (forall id :: id !in q.used ==> ClaimsOf(q.claims, id) == 0)
    && (forall i, j :: 0 <= i < j < |q.claims| && q.claims[i].id == q.claims[j].id ==>
        q.claims[i].expires < q.claims[j].at)
  }

  ghost predicate Invariant(config: Config, q: Queue) {
    RowsOk(config, q) && HolderOk(config, q) && WithinLimits(config, q) && ClaimsOk(q)
  }

  lemma SplitSize(rows: map<nat, Row>)
    ensures |rows| == |ActiveIds(rows)| + |TerminalIds(rows)|
  {
    assert ActiveIds(rows) + TerminalIds(rows) == rows.Keys;
    assert ActiveIds(rows) !! TerminalIds(rows);
    assert |rows| == |rows.Keys|;
  }

  /** Steps that insert nothing and settle or drop rows: the counts can only fall. */
  ghost predicate OnlySettles(q: Queue, next: Queue) {
    && next.rows.Keys <= q.rows.Keys && next.now == q.now && next.holder == q.holder && next.claims == q.claims
       && next.used == q.used
    && LockedIds(q.holder) * q.rows.Keys <= next.rows.Keys
    && forall id :: id in next.rows ==>
                      && (Terminal(q.rows[id]) ==> next.rows[id] == q.rows[id])
                      && (next.rows[id] == q.rows[id] || (Terminal(next.rows[id]) && q.rows[id].status.Running?))
                      && next.rows[id].submission == q.rows[id].submission
                         && next.rows[id].attempts == q.rows[id].attempts
  }

  lemma SettlingKeeps(config: Config, q: Queue, next: Queue)
    requires Invariant(config, q) && OnlySettles(q, next) && RowsOk(config, next)
    ensures Invariant(config, next)
  {
    SettlingKeepsLimits(config, q, next);
    SettlingKeepsClaims(q, next);
  }

  lemma SettlingKeepsLimits(config: Config, q: Queue, next: Queue)
    requires RowsOk(config, q) && HolderOk(config, q) && WithinLimits(config, q) && OnlySettles(q, next)
    ensures HolderOk(config, next) && WithinLimits(config, next)
  {
    SubsetSize(next.rows.Keys, q.rows.Keys);
    assert |next.rows| == |next.rows.Keys| && |q.rows| == |q.rows.Keys|;
    SubsetSize(ActiveIds(next.rows), ActiveIds(q.rows));
  }

  lemma SettlingKeepsClaims(q: Queue, next: Queue)
    requires ClaimsOk(q) && OnlySettles(q, next)
    ensures ClaimsOk(next)
  {
    forall k | 0 <= k < |next.claims|
      ensures ClaimOk(next, next.claims[k])
    {
      assert ClaimOk(q, q.claims[k]);
    }
  }

  lemma CountKeeps(config: Config, q: Queue)
    requires Invariant(config, q) && Enabled(config, q, Count)
    ensures Invariant(config, AfterCount(config, q))
  {
    assert ClaimsOk(AfterCount(config, q)) by {
      SameRowsSameClaims(q, AfterCount(config, q));
    }
  }

  lemma SameRowsSameClaims(q: Queue, next: Queue)
    requires ClaimsOk(q) && next.rows == q.rows && next.claims == q.claims && next.used == q.used && q.now <= next.now
    ensures ClaimsOk(next)
  {
    forall k | 0 <= k < |next.claims|
      ensures ClaimOk(next, next.claims[k])
    {
      assert ClaimOk(q, q.claims[k]);
    }
  }

  lemma EvictKeeps(config: Config, q: Queue, doomed: set<nat>)
    requires Invariant(config, q) && Enabled(config, q, Evict(doomed))
    ensures Invariant(config, AfterEvict(q, doomed))
  {
    SameRowsSameClaims(q, AfterEvict(q, doomed));
  }

  lemma ReplacedSize(rows: map<nat, Row>, doomed: set<nat>, id: nat, row: Row)
    requires doomed <= TerminalIds(rows) && id !in rows
    ensures |Without(rows, doomed)[id := row]| == |rows| - |doomed| + 1
  {
    var next := Without(rows, doomed)[id := row];
    assert next.Keys == (rows.Keys - doomed) + {id};
    assert |next| == |next.Keys| && |rows| == |rows.Keys|;
    SubsetSize(doomed, rows.Keys);
  }

  lemma ReplacedActive(rows: map<nat, Row>, doomed: set<nat>, id: nat, row: Row)
    requires id !in rows
    ensures |ActiveIds(Without(rows, doomed)[id := row])| <= |ActiveIds(rows)| + 1
  {
    var next := Without(rows, doomed)[id := row];
    assert ActiveIds(next) <= ActiveIds(rows) + {id};
    SubsetSize(ActiveIds(next), ActiveIds(rows) + {id});
  }

  lemma CommitKeepsLimits(config: Config, q: Queue, id: nat, submission: string)
    requires Invariant(config, q) && Enabled(config, q, Commit(id, submission))
    ensures WithinLimits(config, AfterCommit(q, id, submission))
  {
    var transaction := q.holder.value;
    ReplacedSize(q.rows, transaction.stage.doomed, id, NewRow(submission, transaction.startedAt));
    ReplacedActive(q.rows, transaction.stage.doomed, id, NewRow(submission, transaction.startedAt));
  }

  lemma CommitKeepsClaims(config: Config, q: Queue, id: nat, submission: string)
    requires ClaimsOk(q) && Enabled(config, q, Commit(id, submission))
    ensures ClaimsOk(AfterCommit(q, id, submission))
  {
    var next := AfterCommit(q, id, submission);
    forall k | 0 <= k < |next.claims|
      ensures ClaimOk(next, next.claims[k])
    {
      assert ClaimOk(q, q.claims[k]);
    }
  }

  lemma CommitKeepsRows(config: Config, q: Queue, id: nat, submission: string)
    requires RowsOk(config, q) && Enabled(config, q, Commit(id, submission))
    ensures RowsOk(config, AfterCommit(q, id, submission))
  {
  }

  lemma CommitKeeps(config: Config, q: Queue, id: nat, submission: string)
    requires Invariant(config, q) && Enabled(config, q, Commit(id, submission))
    ensures Invariant(config, AfterCommit(q, id, submission))
  {
    CommitKeepsLimits(config, q, id, submission);
    CommitKeepsRows(config, q, id, submission);
    CommitKeepsClaims(config, q, id, submission);
  }

  lemma ClaimAdds(claims: seq<Claim>, claim: Claim, id: nat)
    ensures ClaimsOf(claims + [claim], id) == ClaimsOf(claims, id) + (if claim.id == id then 1 else 0)
  {
    assert (claims + [claim])[..|claims|] == claims;
  }

  lemma ClaimKeepsClaims(config: Config, q: Queue, id: nat, leaseSeconds: int)
    requires Invariant(config, q) && Enabled(config, q, ClaimRun(id, leaseSeconds))
    ensures ClaimsOk(AfterClaim(q, id, leaseSeconds))
  {
    var next := AfterClaim(q, id, leaseSeconds);
    var claim := next.claims[|q.claims|];
    forall k | 0 <= k < |next.claims|
      ensures ClaimOk(next, next.claims[k])
      ensures k < |q.claims| && next.claims[k].id == id ==> next.claims[k].expires < claim.at
    {
      assert RowOk(config, q.rows[id]);
      if k < |q.claims| {
        assert ClaimOk(q, q.claims[k]);
        if q.claims[k].id == id && q.rows[id].status.Queued? {
          ClaimedOnce(q.claims, k);
        }
      }
    }
    forall other
      ensures ClaimsOf(next.claims, other) == ClaimsOf(q.claims, other) + (if other == id then 1 else 0)
    {
      ClaimAdds(q.claims, claim, other);
    }
  }

  lemma {:induction false} ClaimedOnce(claims: seq<Claim>, k: nat)
    requires k < |claims|
    ensures ClaimsOf(claims, claims[k].id) > 0
  {
    if k < |claims| - 1 {
      ClaimedOnce(claims[..|claims| - 1], k);
    }
  }

  lemma ClaimKeepsCounts(rows: map<nat, Row>, id: nat, row: Row)
    requires id in rows && Active(rows[id]) && Active(row)
    ensures ActiveIds(rows[id := row]) == ActiveIds(rows) && TerminalIds(rows[id := row]) == TerminalIds(rows)
    ensures |rows[id := row]| == |rows|
  {
    assert rows[id := row].Keys == rows.Keys;
    assert |rows[id := row]| == |rows[id := row].Keys| && |rows| == |rows.Keys|;
  }

  lemma ClaimKeeps(config: Config, q: Queue, id: nat, leaseSeconds: int)
    requires Invariant(config, q) && Enabled(config, q, ClaimRun(id, leaseSeconds))
    ensures Invariant(config, AfterClaim(q, id, leaseSeconds))
  {
    ClaimKeepsClaims(config, q, id, leaseSeconds);
    assert RowOk(config, q.rows[id]);
    ClaimKeepsCounts(q.rows, id, ClaimedRow(q.rows[id], q.now, leaseSeconds));
  }

  lemma WriteKeepsRows(config: Config, q: Queue, step: Step)
    requires Invariant(config, q) && Enabled(config, q, step) && (step.Complete? || step.Fail?)
    ensures RowsOk(config, Next(config, q, step))
  {
    var claim := q.claims[step.claim];
    assert ClaimOk(q, claim);
    assert claim.id in q.rows ==> RowOk(config, q.rows[claim.id]);
  }

  /** A write settles its own run at most. */
  lemma WriteSettles(config: Config, q: Queue, step: Step)
    requires RowsOk(config, q) && Enabled(config, q, step) && (step.Complete? || step.Fail?)
    ensures OnlySettles(q, Next(config, q, step))
    ensures forall id :: id in q.rows && id != q.claims[step.claim].id ==>
                           id in Next(config, q, step).rows && Next(config, q, step).rows[id] == q.rows[id]
  {
    assert q.claims[step.claim].id in q.rows ==> RowOk(config, q.rows[q.claims[step.claim].id]);
  }

  /** Maintenance leaves every run that still has its lease alone. */
  lemma MaintainSettles(config: Config, q: Queue, step: Step)
    requires RowsOk(config, q) && Enabled(config, q, step) && (step.FailExhausted? || step.DeleteExpired?)
    ensures OnlySettles(q, Next(config, q, step)) && RowsOk(config, Next(config, q, step))
    ensures forall id :: id in q.rows && q.rows[id].status.Running? && !LeaseOver(q.rows[id], q.now) ==>
                           id in Next(config, q, step).rows && Next(config, q, step).rows[id] == q.rows[id]
  {
    forall id | id in q.rows
      ensures RowOk(config, q.rows[id])
    {
    }
  }

  lemma WriteKeeps(config: Config, q: Queue, step: Step)
    requires Invariant(config, q) && Enabled(config, q, step) && (step.Complete? || step.Fail?)
    ensures Invariant(config, Next(config, q, step))
  {
    WriteKeepsRows(config, q, step);
    WriteSettles(config, q, step);
    SettlingKeeps(config, q, Next(config, q, step));
  }

  lemma MaintainKeeps(config: Config, q: Queue, step: Step)
    requires Invariant(config, q) && Enabled(config, q, step) && (step.FailExhausted? || step.DeleteExpired?)
    ensures Invariant(config, Next(config, q, step))
  {
    MaintainSettles(config, q, step);
    SettlingKeeps(config, q, Next(config, q, step));
  }

  lemma StepKeepsInvariant(config: Config, q: Queue, step: Step)
    requires Invariant(config, q) && Enabled(config, q, step)
    ensures Invariant(config, Next(config, q, step))
  {
    match step
    case Tick(time) => SameRowsSameClaims(q, q.(now := time));
    case Lock(_) => SameRowsSameClaims(q, Next(config, q, step));
    case Count => CountKeeps(config, q);
    case Evict(doomed) => EvictKeeps(config, q, doomed);
    case Commit(id, submission) => CommitKeeps(config, q, id, submission);
    case Abort => SameRowsSameClaims(q, Next(config, q, step));
    case ClaimRun(id, leaseSeconds) => ClaimKeeps(config, q, id, leaseSeconds);
    case Complete(_) => WriteKeeps(config, q, step);
    case Fail(_, _) => WriteKeeps(config, q, step);
    case FailExhausted => MaintainKeeps(config, q, step);
    case DeleteExpired(_) => MaintainKeeps(config, q, step);
  }
}
