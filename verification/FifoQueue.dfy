/**
 `advanceFifoQueue`: a queue of cohorts, one per second of arrival, drained from the
 front. A ghost log of all arrivals and departures says what the cohorts stand for.
 */
module FifoQueue {
  import opened Numbers

  datatype Cohort = Cohort(enqueuedSecond: int, count: real)

  const RESIDUE: real := 0.000001

  function Sum(cohorts: seq<Cohort>): real {
    if cohorts == [] then 0.0 else cohorts[0].count + Sum(cohorts[1..])
  }

  lemma {:induction false} SumConcat(x: seq<Cohort>, y: seq<Cohort>)
    ensures Sum(x + y) == Sum(x) + Sum(y)
  {
    if x == [] {
      assert x + y == y;
    } else {
      SumConcat(x[1..], y);
      assert (x + y)[1..] == x[1..] + y;
    }
  }

  lemma SumLast(x: seq<Cohort>)
    requires x != []
    ensures Sum(x) == Sum(x[..|x| - 1]) + x[|x| - 1].count
  {
    assert x == x[..|x| - 1] + [x[|x| - 1]];
    SumConcat(x[..|x| - 1], [x[|x| - 1]]);
  }

  ghost predicate StrictlyOrdered(cohorts: seq<Cohort>) {
    forall i, j :: 0 <= i < j < |cohorts| ==> cohorts[i].enqueuedSecond < cohorts[j].enqueuedSecond
  }

  ghost predicate AllPositive(cohorts: seq<Cohort>) {
    forall k :: 0 <= k < |cohorts| ==> cohorts[k].count > 0.0
  }

  /** Arrivals of one second join the cohort of that second, or open one. */
  function Enqueued(cohorts: seq<Cohort>, second: int, arrivals: real): seq<Cohort> {
    if arrivals <= 0.0 then cohorts
    else if cohorts != [] && cohorts[|cohorts| - 1].enqueuedSecond == second then
      cohorts[|cohorts| - 1 := Cohort(second, cohorts[|cohorts| - 1].count + arrivals)]
    else cohorts + [Cohort(second, arrivals)]
  }

  /** The cohorts are the end of the arrival log, with the first of them partly gone. */
  ghost predicate IsTailOf(cohorts: seq<Cohort>, arrived: seq<Cohort>) {
    && |cohorts| <= |arrived|
    && var off := |arrived| - |cohorts|;
       && (forall k :: 0 <= k < |cohorts| ==> cohorts[k].enqueuedSecond == arrived[off + k].enqueuedSecond)
       && (forall k :: 1 <= k < |cohorts| ==> cohorts[k].count == arrived[off + k].count)
       && (cohorts != [] ==> cohorts[0].count <= arrived[off].count)
  }

  /** Everything that arrived is still queued or has departed. */
  ghost predicate Accounts(cohorts: seq<Cohort>, arrived: seq<Cohort>, departed: real) {
    && StrictlyOrdered(arrived) && AllPositive(arrived) && AllPositive(cohorts)
    && IsTailOf(cohorts, arrived) && Sum(arrived) == departed + Sum(cohorts)
  }

  /** The oldest entry of the log that the departures do not cover. */
  ghost predicate IsOldestOwed(arrived: seq<Cohort>, departed: real, k: nat) {
    k < |arrived| && Sum(arrived[..k]) <= departed < Sum(arrived[..k + 1])
  }

  lemma {:induction false} SumTail(cohorts: seq<Cohort>, arrived: seq<Cohort>)
    requires IsTailOf(cohorts, arrived) && cohorts != []
    ensures Sum(cohorts) == Sum(arrived[|arrived| - |cohorts|..])
            - (arrived[|arrived| - |cohorts|].count - cohorts[0].count)
  {
    var off := |arrived| - |cohorts|;
    assert cohorts[1..] == arrived[off..][1..];
  }

  /** The head of the queue is the oldest cohort still owed, and an empty queue owes nothing. */
  lemma HeadIsOldestOwed(cohorts: seq<Cohort>, arrived: seq<Cohort>, departed: real)
    requires Accounts(cohorts, arrived, departed)
    ensures cohorts != [] ==>
              var k := |arrived| - |cohorts|;
              IsOldestOwed(arrived, departed, k) && cohorts[0].enqueuedSecond == arrived[k].enqueuedSecond
    ensures cohorts == [] ==> departed == Sum(arrived)
  {
    if cohorts != [] {
      var k := |arrived| - |cohorts|;
      SumTail(cohorts, arrived);
      assert arrived == arrived[..k] + arrived[k..];
      SumConcat(arrived[..k], arrived[k..]);
      assert arrived[..k + 1][..k] == arrived[..k];
      SumLast(arrived[..k + 1]);
    }
  }

  lemma EnqueuedSum(cohorts: seq<Cohort>, second: int, arrivals: real)
    ensures Sum(Enqueued(cohorts, second, arrivals)) == Sum(cohorts) + MaxReal(0.0, arrivals)
  {
    if arrivals > 0.0 {
      var next := Enqueued(cohorts, second, arrivals);
      SumLast(next);
      if |next| == |cohorts| {
        SumLast(cohorts);
        assert next[..|next| - 1] == cohorts[..|cohorts| - 1];
      } else {
        assert next[..|next| - 1] == cohorts;
      }
    }
  }

  lemma EnqueuedPositive(cohorts: seq<Cohort>, second: int, arrivals: real)
    requires AllPositive(cohorts)
    ensures AllPositive(Enqueued(cohorts, second, arrivals))
  {
  }

  ghost predicate EndsBy(cohorts: seq<Cohort>, second: int) {
    cohorts != [] ==> cohorts[|cohorts| - 1].enqueuedSecond <= second
  }

  lemma EnqueuedOrdered(arrived: seq<Cohort>, second: int, arrivals: real)
    requires StrictlyOrdered(arrived) && EndsBy(arrived, second)
    ensures StrictlyOrdered(Enqueued(arrived, second, arrivals)) && EndsBy(Enqueued(arrived, second, arrivals), second)
  {
    var next := Enqueued(arrived, second, arrivals);
    forall i, j | 0 <= i < j < |next|
      ensures next[i].enqueuedSecond < next[j].enqueuedSecond
    {
      if |next| > |arrived| && j == |arrived| && i < |arrived| - 1 {
        assert arrived[i].enqueuedSecond < arrived[|arrived| - 1].enqueuedSecond;
      }
    }
  }

  lemma MergedTail(cohorts: seq<Cohort>, arrived: seq<Cohort>, second: int, arrivals: real)
    requires IsTailOf(cohorts, arrived) && cohorts != [] && cohorts[|cohorts| - 1].enqueuedSecond == second
             && arrivals > 0.0
    ensures IsTailOf(Enqueued(cohorts, second, arrivals), Enqueued(arrived, second, arrivals))
  {
    var off, last := |arrived| - |cohorts|, |cohorts| - 1;
    assert arrived[off + last].enqueuedSecond == second;
    var next, log := Enqueued(cohorts, second, arrivals), Enqueued(arrived, second, arrivals);
    assert next == cohorts[last := Cohort(second, cohorts[last].count + arrivals)];
    assert log == arrived[off + last := Cohort(second, arrived[off + last].count + arrivals)];
    forall k | 0 <= k < |next|
      ensures next[k].enqueuedSecond == log[off + k].enqueuedSecond
      ensures if k > 0 then next[k].count == log[off + k].count else next[k].count <= log[off + k].count
    {
      assert cohorts[k].enqueuedSecond == arrived[off + k].enqueuedSecond;
    }
  }

  lemma PushedTail(cohorts: seq<Cohort>, arrived: seq<Cohort>, cohort: Cohort)
    requires IsTailOf(cohorts, arrived)
    ensures IsTailOf(cohorts + [cohort], arrived + [cohort])
  {
    var off := |arrived| - |cohorts|;
    forall k | 0 <= k < |cohorts|
      ensures (cohorts + [cohort])[k] == cohorts[k] && (arrived + [cohort])[off + k] == arrived[off + k]
    {
    }
  }

  lemma EnqueuedTail(cohorts: seq<Cohort>, arrived: seq<Cohort>, second: int, arrivals: real)
    requires IsTailOf(cohorts, arrived) && AllPositive(arrived)
    ensures IsTailOf(Enqueued(cohorts, second, arrivals), Enqueued(arrived, second, arrivals))
  {
    if arrivals > 0.0 {
      if cohorts != [] {
        assert cohorts[|cohorts| - 1].enqueuedSecond == arrived[|arrived| - 1].enqueuedSecond;
        if cohorts[|cohorts| - 1].enqueuedSecond == second {
          MergedTail(cohorts, arrived, second, arrivals);
        } else {
          PushedTail(cohorts, arrived, Cohort(second, arrivals));
        }
      }
    }
  }

  lemma EnqueuedAccounts(cohorts: seq<Cohort>, arrived: seq<Cohort>, departed: real, second: int, arrivals: real)
    requires Accounts(cohorts, arrived, departed) && EndsBy(arrived, second)
    ensures Accounts(Enqueued(cohorts, second, arrivals), Enqueued(arrived, second, arrivals), departed)
  {
    EnqueuedSum(cohorts, second, arrivals);
    EnqueuedSum(arrived, second, arrivals);
    EnqueuedPositive(cohorts, second, arrivals);
    EnqueuedPositive(arrived, second, arrivals);
    EnqueuedOrdered(arrived, second, arrivals);
    EnqueuedTail(cohorts, arrived, second, arrivals);
  }

  lemma DroppedTail(cohorts: seq<Cohort>, arrived: seq<Cohort>)
    requires IsTailOf(cohorts, arrived) && cohorts != []
    ensures IsTailOf(cohorts[1..], arrived)
  {
    var off := |arrived| - |cohorts|;
    forall k | 0 <= k < |cohorts[1..]|
      ensures cohorts[1..][k].enqueuedSecond == arrived[off + 1 + k].enqueuedSecond
              && cohorts[1..][k].count == arrived[off + 1 + k].count
    {
      assert cohorts[1..][k] == cohorts[k + 1];
    }
  }

  /** The front cohort is gone, with what was left of it. */
  lemma DroppingAccounts(cohorts: seq<Cohort>, arrived: seq<Cohort>, departed: real)
    requires Accounts(cohorts, arrived, departed) && cohorts != []
    ensures Accounts(cohorts[1..], arrived, departed + cohorts[0].count)
  {
    DroppedTail(cohorts, arrived);
    assert Sum(cohorts) == cohorts[0].count + Sum(cohorts[1..]);
  }

  /** The front cohort has shrunk. */
  lemma ShrinkingAccounts(cohorts: seq<Cohort>, arrived: seq<Cohort>, departed: real, left: real)
    requires Accounts(cohorts, arrived, departed) && cohorts != [] && 0.0 < left <= cohorts[0].count
    ensures Accounts(cohorts[0 := cohorts[0].(count := left)], arrived, departed + cohorts[0].count - left)
  {
    assert cohorts[0 := cohorts[0].(count := left)][1..] == cohorts[1..];
  }

  lemma {:induction false} SumSign(cohorts: seq<Cohort>)
    requires AllPositive(cohorts)
    ensures Sum(cohorts) >= 0.0 && (Sum(cohorts) == 0.0 <==> cohorts == [])
  {
    if cohorts != [] {
      SumSign(cohorts[1..]);
    }
  }

  /** What is left lies between the exact excess of work over capacity and a residue below it. */
  lemma DepthWithin(work: real, capacity: real, processed: real, residue: real, depth: real)
    requires processed == MinReal(work, capacity) && processed + residue + depth == work && depth >= 0.0
    requires 0.0 <= residue <= RESIDUE && (residue > 0.0 ==> processed == capacity)
    ensures MaxReal(0.0, work - capacity) - depth == residue
  {
  }

  /** The most that so many calls may drop. */
  function Allowance(calls: nat): real {
    calls as real * 0.000001
  }

  class CohortQueue {
    var cohorts: seq<Cohort>
    ghost var arrived: seq<Cohort>
    ghost var processedTotal: real
    ghost var dropped: real
    ghost var calls: nat

    ghost predicate Valid()
      reads this
    {
      && Accounts(cohorts, arrived, processedTotal + dropped)
      && 0.0 <= dropped <= Allowance(calls) && processedTotal >= 0.0
    }

    constructor ()
      ensures Valid() && cohorts == [] && arrived == [] && processedTotal == 0.0 && dropped == 0.0 && calls == 0
    {
      cohorts, arrived, processedTotal, dropped, calls := [], [], 0.0, 0.0, 0;
    }

    /** Serves the front of the queue until the capacity or the queue is used up. */
    method Drain(capacity: real, ghost departed: real) returns (processed: real, ghost residue: real)
      requires Accounts(cohorts, arrived, departed)
      modifies `cohorts
      ensures Accounts(cohorts, arrived, departed + processed + residue)
      ensures 0.0 <= residue <= RESIDUE && (residue > 0.0 ==> processed == MaxReal(0.0, capacity))
      ensures processed == MinReal(Sum(old(cohorts)), MaxReal(0.0, capacity))
      ensures processed + residue + Sum(cohorts) == Sum(old(cohorts))
      ensures Sum(cohorts) >= 0.0 && processed >= 0.0
    {
      var remaining := MaxReal(0.0, capacity);
      processed, residue := 0.0, 0.0;
      SumSign(cohorts);
      while remaining > 0.0 && |cohorts| > 0
        invariant remaining >= 0.0 && processed >= 0.0 && 0.0 <= residue <= RESIDUE
        invariant processed + remaining == MaxReal(0.0, capacity)
        invariant residue > 0.0 ==> remaining == 0.0
        invariant processed + residue + Sum(cohorts) == Sum(old(cohorts))
        invariant Accounts(cohorts, arrived, departed + processed + residue)
        decreases |cohorts|, if remaining > 0.0 then 1 else 0
      {
        var cohort := cohorts[0];
        var drained := MinReal(cohort.count, remaining);
        var left := cohort.count - drained;
        remaining := remaining - drained;
        if left <= RESIDUE {
          DroppingAccounts(cohorts, arrived, departed + processed + residue);
          residue := residue + left;
          cohorts := cohorts[1..];
        } else {
          ShrinkingAccounts(cohorts, arrived, departed + processed + residue, left);
          cohorts := cohorts[0 := cohort.(count := left)];
        }
        processed := processed + drained;
      }
      SumSign(cohorts);
    }

    /** Arrivals first, then service: what is left, and what the ghost log says of it. */
    method Turn(second: int, arrivals: real, serviceCapacity: real, ghost departed: real)
      returns (processed: real, ghost residue: real)
      requires Accounts(cohorts, arrived, departed) && EndsBy(arrived, second)
      modifies `cohorts, `arrived
      ensures Accounts(cohorts, arrived, departed + processed + residue) && EndsBy(arrived, second)
      ensures arrived == Enqueued(old(arrived), second, arrivals)
      ensures processed >= 0.0 && 0.0 <= residue <= RESIDUE
      ensures processed == MinReal(Waiting(old(cohorts), arrivals), MaxReal(0.0, serviceCapacity))
      ensures MaxReal(0.0, Waiting(old(cohorts), arrivals) - MaxReal(0.0, serviceCapacity)) - Sum(cohorts) == residue
    {
      EnqueuedAccounts(cohorts, arrived, departed, second, arrivals);
      EnqueuedOrdered(arrived, second, arrivals);
      EnqueuedSum(cohorts, second, arrivals);
      cohorts := Enqueued(cohorts, second, arrivals);
      arrived := Enqueued(arrived, second, arrivals);
      processed, residue := Drain(serviceCapacity, departed);
      DepthWithin(Waiting(old(cohorts), arrivals), MaxReal(0.0, serviceCapacity), processed, residue, Sum(cohorts));
    }

    /** Age in milliseconds of the head of the queue. */
    method OldestAge(second: int) returns (oldestAgeMs: int)
      requires Valid() && EndsBy(arrived, second)
      ensures IsAge(cohorts, arrived, processedTotal + dropped, second, oldestAgeMs) && StrictlyOrdered(cohorts)
    {
      HeadIsOldestOwed(cohorts, arrived, processedTotal + dropped);
      TailOrdered(cohorts, arrived);
      if |cohorts| == 0 {
        return 0;
      }
      var age := second - cohorts[0].enqueuedSecond;
      return (if age > 0 then age else 0) * 1000;
    }

    ghost method Book(processed: real, residue: real)
      requires Accounts(cohorts, arrived, processedTotal + dropped + processed + residue)
      requires 0.0 <= dropped <= Allowance(calls) && processedTotal >= 0.0 && processed >= 0.0
               && 0.0 <= residue <= RESIDUE
      modifies `processedTotal, `dropped, `calls
      ensures Valid()
      ensures processedTotal == old(processedTotal) + processed && dropped == old(dropped) + residue
              && calls == old(calls) + 1
    {
      processedTotal := processedTotal + processed;
      dropped := dropped + residue;
      calls := calls + 1;
    }

    /** One second of the queue. */
    method Advance(second: int, arrivals: real, serviceCapacity: real)
      returns (processed: real, depth: real, oldestAgeMs: int)
      requires Valid() && EndsBy(arrived, second)
      modifies this
      ensures Valid() && StrictlyOrdered(cohorts) && EndsBy(arrived, second)
              && arrived == Enqueued(old(arrived), second, arrivals)
      ensures calls == old(calls) + 1 && processedTotal == old(processedTotal) + processed
      ensures processed == MinReal(Waiting(old(cohorts), arrivals), MaxReal(0.0, serviceCapacity))
      ensures depth == Sum(cohorts) && 0.0 <= dropped - old(dropped) <= RESIDUE
      ensures depth == MaxReal(0.0, Waiting(old(cohorts), arrivals) - MaxReal(0.0, serviceCapacity))
              - (dropped - old(dropped))
      ensures IsAge(cohorts, arrived, processedTotal + dropped, second, oldestAgeMs)
    {
      ghost var residue;
      processed, residue := Turn(second, arrivals, serviceCapacity, processedTotal + dropped);
      Book(processed, residue);
      depth := Depth(cohorts);
      oldestAgeMs := OldestAge(second);
    }
  }

  /** What waits for service in a second: what was queued and what arrives. */
  function Waiting(cohorts: seq<Cohort>, arrivals: real): real {
    Sum(cohorts) + MaxReal(0.0, arrivals)
  }

  /** The age of the oldest arrival that has not departed. */
  ghost predicate IsAge(cohorts: seq<Cohort>, arrived: seq<Cohort>, departed: real, second: int, oldestAgeMs: int) {
    if cohorts == [] then departed == Sum(arrived) && oldestAgeMs == 0
    else
      var k := |arrived| - |cohorts|;
      0 <= k && IsOldestOwed(arrived, departed, k) && oldestAgeMs == (second - arrived[k].enqueuedSecond) * 1000
  }

  lemma TailOrdered(cohorts: seq<Cohort>, arrived: seq<Cohort>)
    requires StrictlyOrdered(arrived) && IsTailOf(cohorts, arrived)
    ensures StrictlyOrdered(cohorts)
    ensures cohorts != [] ==> cohorts[0].enqueuedSecond <= arrived[|arrived| - 1].enqueuedSecond
  {
  }

  method Depth(cohorts: seq<Cohort>) returns (depth: real)
    ensures depth == Sum(cohorts)
  {
    depth := 0.0;
    for i := 0 to |cohorts|
      invariant depth == Sum(cohorts[..i])
    {
      depth := depth + cohorts[i].count;
      SumLast(cohorts[..i + 1]);
      assert cohorts[..i + 1][..i] == cohorts[..i];
    }
    assert cohorts[..|cohorts|] == cohorts;
  }
}
