/**
 The stores over the run table, with the table as the state they update: the API's
 `queueRun`, statement by statement and as one call, and the worker's `claim`,
 `complete`, `fail` and `maintain`. Every statement is one step of the protocol.
 */
module RunStore {
  import opened Collections
  import opened Wrappers
  import opened RunQueue

  datatype ClaimedJob = ClaimedJob(id: nat, submission: string)

  datatype QueueError = QueueCapacityError

  const MAX_CODE_LENGTH := 80
  const MAX_MESSAGE_LENGTH := 500

  function ExhaustedIds(rows: map<nat, Row>, now: int): set<nat> {
    set id | id in rows && Exhausted(rows[id], now)
  }

  function Shortened(text: string, length: nat): (r: string)
    ensures r <= text && |r| <= length
    ensures r == text || |r| == length
  {
    if |text| > length then text[..length] else text
  }

  /** A failure as the row holds it. */
  function Stored(failure: Failure): Failure {
    Failure(Shortened(failure.code, MAX_CODE_LENGTH), Shortened(failure.message, MAX_MESSAGE_LENGTH))
  }

  /** The failure a worker reports for the message of the error that stopped its run. */
  function FailureOf(message: string): Failure {
    Failure(if message == "canonical_run_timeout" then "timeout"
            else if "canonical_result_too_large:" <= message then "result_too_large"
            else if "engine_version_mismatch:" <= message then "engine_version_mismatch"
            else "simulation_error",
            message)
  }

  /** A first id, in eviction order, of a non-empty set of rows. */
  method FirstEvicted(rows: map<nat, Row>, ids: set<nat>) returns (first: nat)
    requires ids != {} && ids <= rows.Keys
    ensures first in ids && forall id :: id in ids ==> !EvictedBefore(rows[id], rows[first])
  {
    first :| first in ids;
    var pending := ids - {first};
    while pending != {}
      invariant pending < ids && first in ids - pending
      invariant forall id :: id in ids - pending ==> !EvictedBefore(rows[id], rows[first])
      decreases pending
    {
      var id :| id in pending;
      if EvictedBefore(rows[id], rows[first]) {
        first := id;
      }
      pending := pending - {id};
    }
  }

  /** SELECT id … ORDER BY … LIMIT required over the terminal rows. */
  method SelectEvicted(rows: map<nat, Row>, required: nat) returns (doomed: set<nat>)
    ensures IsEviction(rows, required, doomed)
  {
    doomed := {};
    var left := TerminalIds(rows);
    while |doomed| < required && left != {}
      invariant left == TerminalIds(rows) - doomed && doomed <= TerminalIds(rows) && |doomed| <= required
      invariant forall d, id :: d in doomed && id in left ==> !EvictedBefore(rows[id], rows[d])
      decreases left
    {
      var first := FirstEvicted(rows, left);
      doomed := doomed + {first};
      left := left - {first};
    }
    SubsetSize(doomed, TerminalIds(rows));
  }

  /** Rows that a concurrent claim has locked are skipped. */
  predicate CanClaim(rows: map<nat, Row>, now: int, locked: set<nat>, id: nat) {
    id in rows && Claimable(rows[id], now) && id !in locked
  }

  ghost predicate NothingClaimable(rows: map<nat, Row>, now: int, locked: set<nat>) {
    forall id :: id in rows ==> !CanClaim(rows, now, locked, id)
  }

  /** The longest-waiting claimable row that is not locked, if there is one. */
  method OldestClaimable(rows: map<nat, Row>, now: int, locked: set<nat>) returns (oldest: Option<nat>)
    ensures oldest.None? <==> NothingClaimable(rows, now, locked)
    ensures oldest.Some? ==>
              && CanClaim(rows, now, locked, oldest.value)
              && forall id :: CanClaim(rows, now, locked, id) ==> rows[oldest.value].createdAt <= rows[id].createdAt
  {
    oldest := None;
    var pending := rows.Keys;
    while pending != {}
      invariant pending <= rows.Keys
      invariant oldest.None? ==> forall id :: id in rows && id !in pending ==> !CanClaim(rows, now, locked, id)
      invariant oldest.Some? ==>
                  && CanClaim(rows, now, locked, oldest.value)
                  && forall id :: id !in pending && CanClaim(rows, now, locked, id) ==>
                       rows[oldest.value].createdAt <= rows[id].createdAt
      decreases pending
    {
      var id :| id in pending;
      if CanClaim(rows, now, locked, id) && (oldest.None? || rows[id].createdAt < rows[oldest.value].createdAt) {
        oldest := Some(id);
      }
      pending := pending - {id};
    }
  }

  class RunTable {
    var rows: map<nat, Row>
    var now: int
    var holder: Option<Transaction>
    var claims: seq<Claim>
    ghost var used: set<nat>
    const config: Config

    ghost function View(): Queue
      reads this
    {
      Queue(rows, now, holder, claims, used)
    }

    ghost predicate Valid()
      reads this
    {
      Invariant(config, View())
    }

    constructor (limits: Config, start: int)
      requires limits.maximumQueued >= 0 && limits.maximumStored >= 0
      ensures Valid() && config == limits && View() == Empty(start)
    {
      config, rows, now, holder, claims, used := limits, map[], start, None, [], {};
      new;
      assert ActiveIds(rows) == {};
    }

    // ------------------------------------------------------------ queueRun

    method TakeLock(startedAt: int)
      requires Valid() && holder.None? && startedAt <= now
      modifies this
      ensures Valid() && IsStep(config, old(View()), Lock(startedAt), View())
    {
      StepKeepsInvariant(config, View(), Lock(startedAt));
      holder := Some(Transaction(startedAt, Locked));
    }

    method CountRuns() returns (r: Option<QueueError>)
      requires Valid() && holder.Some? && holder.value.stage.Locked?
      modifies this
      ensures Valid() && IsStep(config, old(View()), Count, View())
      ensures r.Some? <==> |ActiveIds(rows)| >= config.maximumQueued
      ensures r.Some? <==> holder.None?
    {
      StepKeepsInvariant(config, View(), Count);
      if |ActiveIds(rows)| >= config.maximumQueued {
        holder := None;
        return Some(QueueCapacityError);
      }
      holder := Some(holder.value.(stage := Counted(|rows|, Required(config, |rows|))));
      return None;
    }

    method EvictRuns() returns (r: Option<QueueError>)
      requires Valid() && holder.Some? && holder.value.stage.Counted?
      modifies this
      ensures Valid() && exists doomed :: IsStep(config, old(View()), RunQueue.Evict(doomed), View())
      ensures rows == old(rows) && now == old(now) && used == old(used)
      ensures r.Some? <==> |TerminalIds(rows)| < old(holder).value.stage.required
      ensures r.Some? <==> holder.None?
      ensures holder.Some? ==>
                && holder.value.stage.Evicted? && holder.value.startedAt == old(holder).value.startedAt
                && IsEviction(rows, old(holder).value.stage.required, holder.value.stage.doomed)
    {
      var required := holder.value.stage.required;
      var doomed := SelectEvicted(rows, required);
      ghost var before := View();
      EvictKeeps(config, before, doomed);
      if |doomed| < required {
        holder, r := None, Some(QueueCapacityError);
      } else {
        holder, r := Some(holder.value.(stage := Evicted(doomed))), None;
      }
      assert IsStep(config, before, RunQueue.Evict(doomed), View());
    }

    method InsertRun(id: nat, submission: string)
      requires Valid() && holder.Some? && holder.value.stage.Evicted? && id !in used
      modifies this
      ensures Valid() && IsStep(config, old(View()), Commit(id, submission), View())
    {
      CommitKeeps(config, View(), id, submission);
      rows := Without(rows, holder.value.stage.doomed)[id := NewRow(submission, holder.value.startedAt)];
      holder := None;
      used := used + {id};
    }

    /**
     The whole call without interruption: refused exactly when the queue is full, or the
     table is and holds too few settled runs; a refusal changes nothing.
     */
    method QueueRun(id: nat, submission: string) returns (r: Option<QueueError>)
      requires Valid() && holder.None? && id !in used
      modifies this
      ensures Valid() && holder.None?
      ensures r.Some? <==> || |ActiveIds(old(rows))| >= config.maximumQueued
                           || |TerminalIds(old(rows))| < Required(config, |old(rows)|)
      ensures r.Some? ==> rows == old(rows)
      ensures r.None? ==>
                exists doomed ::
                  && IsEviction(old(rows), Required(config, |old(rows)|), doomed)
                  && rows == Without(old(rows), doomed)[id := NewRow(submission, now)]
    {
      TakeLock(now);
      r := CountRuns();
      if r.None? {
        r := EvictRuns();
        if r.None? {
          InsertRun(id, submission);
        }
      }
    }

    // -------------------------------------------------------------- workers

    /** Hands out the longest-waiting claimable run that no other claim has locked, and none only when there is none. */
    method Claim(leaseSeconds: nat, locked: set<nat>) returns (job: Option<ClaimedJob>)
      requires Valid()
      modifies this
      ensures Valid()
      ensures job.None? <==> NothingClaimable(old(rows), now, locked)
      ensures now == old(now) && (job.None? ==> View() == old(View()))
      ensures job.Some? ==>
                && CanClaim(old(rows), now, locked, job.value.id)
                && View() == AfterClaim(old(View()), job.value.id, leaseSeconds)
                   && job.value.submission == rows[job.value.id].submission
      ensures job.Some? ==>
                forall id :: CanClaim(old(rows), now, locked, id) ==>
                    old(rows)[job.value.id].createdAt <= old(rows)[id].createdAt
    {
      var candidate := OldestClaimable(rows, now, locked);
      if candidate.None? {
        return None;
      }
      HandOut(candidate.value, leaseSeconds);
      return Some(ClaimedJob(candidate.value, rows[candidate.value].submission));
    }

    method HandOut(id: nat, leaseSeconds: nat)
      requires Valid() && id in rows && Claimable(rows[id], now)
      modifies this
      ensures Valid() && IsStep(config, old(View()), ClaimRun(id, leaseSeconds), View())
      ensures now == old(now) && rows == old(rows)[id := ClaimedRow(old(rows)[id], now, leaseSeconds)]
      ensures |claims| == |old(claims)| + 1 && claims[|claims| - 1].id == id
              && claims[|claims| - 1].submission == rows[id].submission
    {
      ClaimKeeps(config, View(), id, leaseSeconds);
      var row := ClaimedRow(rows[id], now, leaseSeconds);
      rows := rows[id := row];
      claims := claims + [RunQueue.Claim(id, row.attempts, row.submission, now, now + leaseSeconds)];
    }

    /** Writes the result of claim k, whether or not the claim is still the latest. */
    method Complete(k: nat, result: string)
      requires Valid() && k < |claims| && result == config.canonical(claims[k].submission)
      modifies this
      ensures Valid() && now == old(now) && IsStep(config, old(View()), RunQueue.Complete(k), View())
      ensures claims == old(claims)
      ensures rows == WriteCompleted(old(rows), claims[k].id, now, result)
    {
      StepKeepsInvariant(config, View(), RunQueue.Complete(k));
      rows := WriteCompleted(rows, claims[k].id, now, result);
    }

    method Fail(k: nat, failure: Failure)
      requires Valid() && k < |claims|
      modifies this
      ensures Valid() && now == old(now)
      ensures IsStep(config, old(View()), RunQueue.Fail(k, Stored(failure)), View())
      ensures claims == old(claims)
      ensures rows == WriteFailed(old(rows), claims[k].id, now, Stored(failure))
    {
      var stored := Stored(failure);
      StepKeepsInvariant(config, View(), RunQueue.Fail(k, stored));
      rows := WriteFailed(rows, claims[k].id, now, stored);
    }

    /** Fails every run whose third lease is over, and reports how many there were. */
    method MaintainExhausted() returns (exhausted: nat)
      requires Valid()
      modifies this
      ensures Valid() && IsStep(config, old(View()), FailExhausted, View())
      ensures exhausted == |ExhaustedIds(old(rows), now)|
      ensures forall id :: id in rows ==> !Exhausted(rows[id], now)
    {
      StepKeepsInvariant(config, View(), FailExhausted);
      exhausted := |ExhaustedIds(rows, now)|;
      rows := WithExhaustedFailed(rows, now);
    }

    method MaintainRetention(retentionDays: nat)
      requires Valid()
      modifies this
      ensures Valid() && IsStep(config, old(View()), DeleteExpired(retentionDays * 86400), View())
    {
      StepKeepsInvariant(config, View(), DeleteExpired(retentionDays * 86400));
      rows := WithoutExpired(rows, now, retentionDays * 86400, LockedIds(holder));
    }

    /** Time passes and nothing else happens. */
    method Wait(seconds: nat)
      requires Valid()
      modifies this
      ensures Valid() && IsStep(config, old(View()), Tick(old(now) + seconds), View())
    {
      StepKeepsInvariant(config, View(), Tick(now + seconds));
      now := now + seconds;
    }

    /** Writes what the engine made of the newest claim: the canonical result, or a failure. */
    method Settle(error: Option<string>)
      requires Valid() && |claims| > 0 && claims[|claims| - 1].id in rows
               && rows[claims[|claims| - 1].id].status.Running?
      requires claims[|claims| - 1].submission == rows[claims[|claims| - 1].id].submission
      modifies this
      ensures Valid() && now == old(now)
      ensures var id := old(claims)[|old(claims)| - 1].id;
              rows == old(rows)[id := SettledRow(config, old(rows)[id], now, error)]
    {
      match error
      case None => Complete(|claims| - 1, config.canonical(claims[|claims| - 1].submission));
      case Some(message) => Fail(|claims| - 1, FailureOf(message));
    }

    /** The newest claim runs for a while and is settled. */
    method Finish(elapsedSeconds: nat, error: Option<string>)
      requires Valid() && |claims| > 0 && claims[|claims| - 1].id in rows
               && rows[claims[|claims| - 1].id].status.Running?
      requires claims[|claims| - 1].submission == rows[claims[|claims| - 1].id].submission
      modifies this
      ensures Valid() && now == old(now) + elapsedSeconds
      ensures var id := old(claims)[|old(claims)| - 1].id;
              rows == old(rows)[id := SettledRow(config, old(rows)[id], now, error)]
    {
      Wait(elapsedSeconds);
      Settle(error);
    }

    /** One round of a worker: claim, run the engine for a while, write what came of it. No other run is touched. */
    method RunOnce(leaseSeconds: nat, locked: set<nat>, elapsedSeconds: nat, error: Option<string>)
      returns (job: Option<ClaimedJob>)
      requires Valid()
      modifies this
      ensures Valid()
      ensures job.None? ==> NothingClaimable(old(rows), old(now), locked) && rows == old(rows) && now == old(now)
      ensures job.Some? ==> now == old(now) + elapsedSeconds && CanClaim(old(rows), old(now), locked, job.value.id)
      ensures job.Some? ==>
                && rows.Keys == old(rows).Keys
                   && (forall id :: id in rows && id != job.value.id ==> rows[id] == old(rows)[id])
                && rows[job.value.id] == SettledRow(config, ClaimedRow(old(rows)[job.value.id], old(now), leaseSeconds),
                                                    now, error)
    {
      job := Claim(leaseSeconds, locked);
      if job.Some? {
        Finish(elapsedSeconds, error);
      }
    }
  }

  function SettledRow(config: Config, row: Row, now: int, error: Option<string>): Row {
    match error
    case None => CompletedRow(row, now, config.canonical(row.submission))
    case Some(message) => FailedRow(row, now, Stored(FailureOf(message)))
  }
}
