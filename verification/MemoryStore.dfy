/**
 The in-memory counterpart of the run table: `queueRun` over a map, evicting settled
 runs one by one in the order they were created.
 */
module MemoryStore {
  import opened Collections
  import opened Wrappers
  import opened RunQueue
  import RunStore

  datatype Record = Record(status: Status, createdAt: int)

  predicate IsActive(record: Record) {
    record.status.Queued? || record.status.Running?
  }

  function ActiveRuns(runs: map<nat, Record>): (ids: set<nat>)
    ensures ids <= runs.Keys
  {
    set id | id in runs && IsActive(runs[id])
  }

  function SettledRuns(runs: map<nat, Record>): (ids: set<nat>)
    ensures ids <= runs.Keys
  {
    set id | id in runs && !IsActive(runs[id])
  }

  function Drop(runs: map<nat, Record>, ids: seq<nat>): (r: map<nat, Record>)
    ensures forall id :: id in r <==> id in runs && id !in ids
    ensures forall id :: id in r ==> r[id] == runs[id]
  {
    map id | id in runs && id !in ids :: runs[id]
  }

  lemma ActiveAndSettled(runs: map<nat, Record>)
    ensures ActiveRuns(runs) + SettledRuns(runs) == runs.Keys
    ensures |runs| == |ActiveRuns(runs)| + |SettledRuns(runs)|
  {
    assert ActiveRuns(runs) + SettledRuns(runs) == runs.Keys;
    assert ActiveRuns(runs) !! SettledRuns(runs);
    assert |runs| == |runs.Keys|;
  }

  predicate CreatedInOrder(runs: map<nat, Record>, ids: seq<nat>)
    requires forall id :: id in ids ==> id in runs
  {
    forall i, j :: 0 <= i < j < |ids| ==> runs[ids[i]].createdAt <= runs[ids[j]].createdAt
  }

  method FirstCreated(runs: map<nat, Record>, ids: set<nat>) returns (first: nat)
    requires ids != {} && ids <= runs.Keys
    ensures first in ids && forall id :: id in ids ==> runs[first].createdAt <= runs[id].createdAt
  {
    first :| first in ids;
    var pending := ids - {first};
    while pending != {}
      invariant pending < ids && first in ids - pending
      invariant forall id :: id in ids - pending ==> runs[first].createdAt <= runs[id].createdAt
      decreases pending
    {
      var id :| id in pending;
      if runs[id].createdAt < runs[first].createdAt {
        first := id;
      }
      pending := pending - {id};
    }
  }

  /** The settled runs sorted by creation. */
  method SettledByCreation(runs: map<nat, Record>) returns (ids: seq<nat>)
    ensures ListsSettled(runs, ids)
  {
    ids := [];
    var pending := SettledRuns(runs);
    while pending != {}
      invariant pending <= SettledRuns(runs)
      invariant NoDuplicates(ids) && forall id :: id in ids <==> id in SettledRuns(runs) - pending
      invariant forall i :: 0 <= i < |ids| ==> ids[i] in runs && ids[i] !in pending
      invariant CreatedInOrder(runs, ids)
      invariant forall i, id :: 0 <= i < |ids| && id in pending ==> runs[ids[i]].createdAt <= runs[id].createdAt
      decreases pending
    {
      var id := FirstCreated(runs, pending);
      ids := ids + [id];
      pending := pending - {id};
    }
  }

  /** All settled runs, each once, oldest first. */
  ghost predicate ListsSettled(runs: map<nat, Record>, ids: seq<nat>) {
    && NoDuplicates(ids) && (forall id :: id in ids <==> id in SettledRuns(runs)) && CreatedInOrder(runs, ids)
  }

  lemma DropOne(runs: map<nat, Record>, ids: seq<nat>, k: nat)
    requires NoDuplicates(ids) && k < |ids|
    ensures Drop(runs, ids[..k]) - {ids[k]} == Drop(runs, ids[..k + 1])
    ensures ids[k] !in ids[..k]
  {
    assert ids[..k + 1] == ids[..k] + [ids[k]];
  }

  lemma DropSize(runs: map<nat, Record>, ids: seq<nat>, k: nat)
    requires NoDuplicates(ids) && (forall id :: id in ids ==> id in runs) && k <= |ids|
    ensures |Drop(runs, ids[..k])| == |runs| - k
  {
    var gone, left := Members(ids[..k]), Drop(runs, ids[..k]);
    MembersSize(ids[..k]);
    SubsetSize(gone, runs.Keys);
    assert left.Keys == runs.Keys - gone;
    assert |left| == |left.Keys| && |runs| == |runs.Keys|;
  }

  lemma DropSettled(runs: map<nat, Record>, ids: seq<nat>, k: nat)
    requires ListsSettled(runs, ids) && k <= |ids|
    ensures ActiveRuns(Drop(runs, ids[..k])) == ActiveRuns(runs)
    ensures EvictsOldest(runs, Drop(runs, ids[..k]))
  {
    forall gone, kept | gone in ids[..k] && kept in SettledRuns(runs) && kept !in ids[..k]
      ensures runs[gone].createdAt <= runs[kept].createdAt
    {
      var i :| 0 <= i < k && ids[i] == gone;
      var j :| 0 <= j < |ids| && ids[j] == kept;
      assert j >= k;
    }
    forall id | id in ids[..k]
      ensures id in SettledRuns(runs)
    {
      assert id in ids;
    }
  }

  lemma DropAll(runs: map<nat, Record>, ids: seq<nat>)
    requires ListsSettled(runs, ids)
    ensures |ids| == |runs| - |ActiveRuns(runs)|
  {
    DropSettled(runs, ids, |ids|);
    DropSize(runs, ids, |ids|);
    assert ids[..|ids|] == ids;
    ActiveAndSettled(Drop(runs, ids));
    assert SettledRuns(Drop(runs, ids)) == {};
  }

  /** Dropping the first k settled runs keeps the active ones and drops none younger than one that stays. */
  lemma DropOldest(runs: map<nat, Record>, ids: seq<nat>, k: nat)
    requires ListsSettled(runs, ids) && k <= |ids|
    ensures ActiveRuns(Drop(runs, ids[..k])) == ActiveRuns(runs)
    ensures |Drop(runs, ids[..k])| == |runs| - k && |ids| == |runs| - |ActiveRuns(runs)|
    ensures EvictsOldest(runs, Drop(runs, ids[..k]))
  {
    DropSize(runs, ids, k);
    DropSettled(runs, ids, k);
    DropAll(runs, ids);
  }

  /** Only settled runs go, and none that is younger than a settled run that stays. */
  ghost predicate EvictsOldest(before: map<nat, Record>, after: map<nat, Record>) {
    && (forall gone :: gone in before && gone !in after ==> !IsActive(before[gone]))
    && forall gone, kept :: gone in before && gone !in after && kept in SettledRuns(after) ==>
         before[gone].createdAt <= after[kept].createdAt
  }

  /** What is left is as it was. */
  ghost predicate LeavesUnchanged<T(!new)>(before: map<nat, T>, after: map<nat, T>) {
    after.Keys <= before.Keys && forall id :: id in after ==> after[id] == before[id]
  }

  lemma RefusalKeepsAllIff(before: map<nat, Record>, after: map<nat, Record>)
    requires LeavesUnchanged(before, after) && after.Keys == ActiveRuns(before)
    ensures after == before <==> SettledRuns(before) == {}
  {
    ActiveAndSettled(before);
    if SettledRuns(before) == {} {
      assert after.Keys == before.Keys;
    } else {
      var id :| id in SettledRuns(before);
      assert id in before && id !in after;
    }
  }

  /** A store within its limit that active runs fill holds nothing else. */
  lemma RefusalWithinLimit(runs: map<nat, Record>, maximumStored: int)
    requires |ActiveRuns(runs)| >= maximumStored
    ensures |runs| <= maximumStored ==> SettledRuns(runs) == {}
  {
    ActiveAndSettled(runs);
  }

  lemma KeptWhole<T(!new)>(before: map<nat, T>, after: map<nat, T>)
    requires LeavesUnchanged(before, after)
    ensures after.Keys == before.Keys ==> after == before
  {
  }

  /** Apart from id, what is there was there before and is as it was. */
  ghost predicate AddsOnly<T(!new)>(before: map<nat, T>, after: map<nat, T>, id: nat) {
    forall other :: other in after && other != id ==> other in before && after[other] == before[other]
  }

  lemma AddedAfterEviction(before: map<nat, Record>, after: map<nat, Record>, id: nat, record: Record)
    requires EvictsOldest(before, after) && LeavesUnchanged(before, after) && id !in before && IsActive(record)
    ensures EvictsOldest(before, after[id := record]) && AddsOnly(before, after[id := record], id)
  {
    assert SettledRuns(after[id := record]) == SettledRuns(after);
  }

  lemma AddedUnchanged<T(!new)>(before: map<nat, T>, after: map<nat, T>, id: nat, value: T)
    requires LeavesUnchanged(before, after)
    ensures AddsOnly(before, after[id := value], id)
  {
  }

  class Store {
    var runs: map<nat, Record>
    var submissions: map<nat, string>

    ghost predicate Valid()
      reads this
    {
      submissions.Keys == runs.Keys
    }

    method QueuedCount() returns (queued: nat)
      ensures queued == |ActiveRuns(runs)|
    {
      queued := |ActiveRuns(runs)|;
    }

    /** Takes the first run off the list and out of the store. */
    method Shift(terminal: seq<nat>, ghost before: map<nat, Record>, ghost all: seq<nat>, ghost shifted: nat)
      returns (rest: seq<nat>)
      requires Valid() && terminal != [] && shifted < |all| && terminal == all[shifted..]
      requires ListsSettled(before, all) && runs == Drop(before, all[..shifted])
      modifies this
      ensures Valid() && rest == all[shifted + 1..] && LeavesUnchanged(old(submissions), submissions)
      ensures runs == Drop(before, all[..shifted + 1]) && |runs| == |before| - (shifted + 1)
    {
      runs := runs - {terminal[0]};
      submissions := submissions - {terminal[0]};
      DropOne(before, all, shifted);
      DropSize(before, all, shifted + 1);
      rest := terminal[1..];
    }

    /** Removes the oldest settled runs until there is room or none is left. */
    method EvictOldest(maximumStored: int)
      requires Valid()
      modifies this
      ensures Valid() && ActiveRuns(runs) == ActiveRuns(old(runs))
      ensures LeavesUnchanged(old(runs), runs) && LeavesUnchanged(old(submissions), submissions)
      ensures |runs| == (if |old(runs)| < maximumStored then |old(runs)|
                         else if |ActiveRuns(old(runs))| < maximumStored then maximumStored - 1
                         else |ActiveRuns(old(runs))|)
      ensures EvictsOldest(old(runs), runs)
    {
      var terminal := SettledByCreation(runs);
      ghost var all := terminal;
      ghost var before := runs;
      ghost var shifted := 0;
      assert Drop(before, all[..0]) == before;
      DropOldest(before, all, 0);
      while |runs| >= maximumStored && |terminal| > 0
        invariant Valid() && shifted <= |all| && terminal == all[shifted..]
        invariant runs == Drop(before, all[..shifted]) && |runs| == |before| - shifted
        invariant LeavesUnchanged(old(submissions), submissions)
        invariant shifted > 0 ==> |runs| >= maximumStored - 1
        decreases |terminal|
      {
        terminal := Shift(terminal, before, all, shifted);
        shifted := shifted + 1;
      }
      DropOldest(before, all, shifted);
    }

    /** Evicts as far as needed; there is room unless the active runs alone fill the store. */
    method MakeRoom(maximumStored: int) returns (room: bool)
      requires Valid()
      modifies this
      ensures Valid() && EvictsOldest(old(runs), runs) && ActiveRuns(runs) == ActiveRuns(old(runs))
      ensures LeavesUnchanged(old(runs), runs) && LeavesUnchanged(old(submissions), submissions)
      ensures room <==> |ActiveRuns(old(runs))| < maximumStored
      ensures room ==> |runs| == if |old(runs)| < maximumStored then |old(runs)| else maximumStored - 1
      ensures !room ==> runs.Keys == ActiveRuns(old(runs))
    {
      ActiveAndSettled(runs);
      EvictOldest(maximumStored);
      ActiveAndSettled(runs);
      room := |runs| < maximumStored;
      assert !room ==> SettledRuns(runs) == {};
    }

    /**
     Refused exactly when the queue is full or active runs alone fill the store. Active
     runs stay, and whatever stays is unchanged. A refusal leaves everything as it was
     exactly when the queue was full or there was nothing settled to evict. A store within
     the limit stays within it, and then a refusal loses nothing, whatever the queue limit.
     */
    method QueueRun(id: nat, submission: string, createdAt: int, maximumQueued: int, maximumStored: int)
      returns (r: Option<RunStore.QueueError>)
      requires Valid() && id !in runs
      modifies this
      ensures Valid()
      ensures r.Some? <==> |ActiveRuns(old(runs))| >= maximumQueued || |ActiveRuns(old(runs))| >= maximumStored
      ensures r.Some? ==> LeavesUnchanged(old(runs), runs) && LeavesUnchanged(old(submissions), submissions)
      ensures r.Some? ==> (runs == old(runs) <==> |ActiveRuns(old(runs))| >= maximumQueued
                                                  || SettledRuns(old(runs)) == {})
      ensures r.Some? && |ActiveRuns(old(runs))| < maximumQueued ==> runs.Keys == ActiveRuns(old(runs))
      ensures r.Some? && maximumQueued <= maximumStored ==> runs == old(runs) && submissions == old(submissions)
      ensures |old(runs)| <= maximumStored ==> |runs| <= maximumStored
      ensures |old(runs)| <= maximumStored && r.Some? ==> runs == old(runs) && submissions == old(submissions)
      ensures r.None? ==> id in runs && runs[id] == Record(Queued, createdAt) && submissions[id] == submission
      ensures r.None? ==> AddsOnly(old(runs), runs, id) && AddsOnly(old(submissions), submissions, id)
      ensures r.None? ==> ActiveRuns(runs) == ActiveRuns(old(runs)) + {id}
      ensures r.None? ==> |runs| == (if |old(runs)| < maximumStored then |old(runs)| + 1 else maximumStored)
      ensures r.None? ==> EvictsOldest(old(runs), runs)
    {
      var queued := QueuedCount();
      if queued >= maximumQueued {
        return Some(RunStore.QueueCapacityError);
      }
      ActiveAndSettled(runs);
      var room := MakeRoom(maximumStored);
      if !room {
        RefusalKeepsAllIff(old(runs), runs);
        RefusalWithinLimit(old(runs), maximumStored);
        KeptWhole(old(submissions), submissions);
        return Some(RunStore.QueueCapacityError);
      }
      AddedAfterEviction(old(runs), runs, id, Record(Queued, createdAt));
      AddedUnchanged(old(submissions), submissions, id, submission);
      AddRun(id, submission, createdAt);
      return None;
    }

    method AddRun(id: nat, submission: string, createdAt: int)
      requires Valid() && id !in runs
      modifies this
      ensures Valid() && runs == old(runs)[id := Record(Queued, createdAt)]
              && submissions == old(submissions)[id := submission]
      ensures |runs| == |old(runs)| + 1 && SettledRuns(runs) == SettledRuns(old(runs))
              && ActiveRuns(runs) == ActiveRuns(old(runs)) + {id}
    {
      ghost var before := runs;
      runs := runs[id := Record(Queued, createdAt)];
      submissions := submissions[id := submission];
      assert runs.Keys == before.Keys + {id} && |runs| == |runs.Keys| && |before| == |before.Keys|;
    }

    /** A run ends; the records of the store are open to those who run them. */
    method Settle(id: nat, status: Status)
      requires Valid()
      modifies `runs
      ensures Valid() && runs.Keys == old(runs).Keys && |runs| == |old(runs)|
      ensures forall other :: other in runs ==>
                                runs[other] == if other == id then old(runs)[id].(status := status)
                                    else old(runs)[other]
    {
      ghost var before := runs;
      if id in runs {
        runs := runs[id := runs[id].(status := status)];
      }
      assert runs.Keys == before.Keys && |runs| == |runs.Keys| && |before| == |before.Keys|;
    }

    constructor ()
      ensures Valid() && runs == map[]
    {
      runs, submissions := map[], map[];
    }
  }

  /** What reaches a store: a submission, or the end of a run. */
  datatype Call = Submit(id: nat, submission: string, createdAt: int, maximumQueued: int)
      | Settle(id: nat, status: Status)

  predicate SubmitsFresh(calls: seq<Call>, k: nat)
    requires k < |calls|
  {
    calls[k].Submit? ==> forall j :: 0 <= j < k && calls[j].Submit? ==> calls[j].id != calls[k].id
  }

  /**
   Under one store limit the store never exceeds it and no refused submission loses anything,
   whatever the queue limits.
   */
  method ServeUnderOneLimit(calls: seq<Call>, maximumStored: nat) returns (store: Store, lossless: bool)
    requires forall k :: 0 <= k < |calls| ==> SubmitsFresh(calls, k)
    ensures fresh(store) && store.Valid() && |store.runs| <= maximumStored && lossless
  {
    store := new Store();
    lossless := true;
    for k := 0 to |calls|
      invariant fresh(store) && store.Valid() && |store.runs| <= maximumStored && lossless
      invariant forall id :: id in store.runs ==> exists j :: 0 <= j < k && calls[j].Submit? && calls[j].id == id
    {
      match calls[k]
      case Submit(id, submission, createdAt, maximumQueued) =>
        assert SubmitsFresh(calls, k);
        var before := store.runs;
        var refused := store.QueueRun(id, submission, createdAt, maximumQueued, maximumStored);
        lossless := lossless && (refused.Some? ==> store.runs == before);
      case Settle(id, status) =>
        store.Settle(id, status);
    }
  }

  method QueueFirst() returns (store: Store)
    ensures fresh(store) && store.Valid() && store.runs == map[0 := Record(Queued, 0)]
  {
    store := new Store();
    var r := store.QueueRun(0, "first", 0, 2, 2);
    assert store.runs.Keys == {0};
  }

  method QueueSecond(store: Store)
    requires store.Valid() && store.runs == map[0 := Record(Completed, 0)]
    modifies store
    ensures store.Valid() && store.runs == map[0 := Record(Completed, 0), 1 := Record(Queued, 1)]
  {
    assert ActiveRuns(store.runs) == {};
    var r := store.QueueRun(1, "second", 1, 2, 2);
    assert |store.runs| == |store.runs.Keys| == 2 && store.runs.Keys <= {0, 1};
    AllOfTwo(store.runs.Keys);
  }

  lemma AllOfTwo(ids: set<nat>)
    requires ids <= {0, 1} && |ids| == 2
    ensures ids == {0, 1}
  {
    SubsetSize(ids, {0, 1});
  }

  /** Only a limit that falls between calls costs something: here a completed run, for a submission that is refused. */
  method FallingLimitLosesRuns() returns (refused: bool, lost: bool)
    ensures refused && lost
  {
    var store := QueueFirst();
    store.Settle(0, Completed);
    QueueSecond(store);
    assert ActiveRuns(store.runs) == {1};
    var third := store.QueueRun(2, "third", 2, 2, 1);
    refused, lost := third.Some?, 0 !in store.runs;
  }
}
