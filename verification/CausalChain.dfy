/**
 `causalChain`: the events that led to a chosen event, by a depth-first walk over parent
 ids that marks an event as visited only after its parents.
 */
module CausalChain {
  import opened Wrappers
  import opened CausalEvents

  /** Event i is event k, or a parent of an event that led to it: an ancestor. */
  ghost predicate LedTo(events: seq<Event>, i: nat, k: nat)
    requires k < |events|
    decreases k
  {
    i == k || exists j: nat :: j < k && events[j].id in events[k].parentIds && LedTo(events, i, j)
  }

  function ById(events: seq<Event>): (m: map<string, nat>)
    ensures forall id :: id in m ==> m[id] < |events| && events[m[id]].id == id
    ensures forall k :: 0 <= k < |events| ==> events[k].id in m
  {
    if events == [] then map[] else ById(events[..|events| - 1])[events[|events| - 1].id := |events| - 1]
  }

  lemma ByIdPosition(events: seq<Event>, k: nat)
    requires UniqueIds(events) && k < |events|
    ensures ById(events)[events[k].id] == k
  {
  }

  /** In a log the parents of event k are found, and found before k. */
  lemma ParentPosition(events: seq<Event>, k: nat, p: string)
    requires IsLog(events) && k < |events| && p in events[k].parentIds
    ensures p in ById(events) && ById(events)[p] < k
  {
    assert HasId(events[..k], p);
    var i :| 0 <= i < k && events[..k][i].id == p;
    ByIdPosition(events, i);
  }

  /** No event twice, and every parent of a listed event listed before it. */
  ghost predicate ParentsFirst(events: seq<Event>, ordered: seq<nat>) {
    && (forall p :: 0 <= p < |ordered| ==> ordered[p] < |events|)
    && (forall p, q :: 0 <= p < q < |ordered| ==> ordered[p] != ordered[q])
    && forall p, id :: 0 <= p < |ordered| && id in events[ordered[p]].parentIds ==> Listed(events, ordered[..p], id)
  }

  ghost predicate Listed(events: seq<Event>, ordered: seq<nat>, id: string) {
    exists q :: 0 <= q < |ordered| && ordered[q] < |events| && events[ordered[q]].id == id
  }

  lemma ListedStays(events: seq<Event>, before: seq<nat>, after: seq<nat>, id: string)
    requires Listed(events, before, id) && before <= after
    ensures Listed(events, after, id)
  {
    var q :| 0 <= q < |before| && before[q] < |events| && events[before[q]].id == id;
    assert after[q] == before[q];
  }

  lemma {:induction false} ListedHoldsAncestors(events: seq<Event>, ordered: seq<nat>, i: nat, k: nat)
    requires IsLog(events) && ParentsFirst(events, ordered) && k < |events| && k in ordered && LedTo(events, i, k)
    ensures i in ordered
    decreases k
  {
    if i != k {
      var j: nat :| j < k && events[j].id in events[k].parentIds && LedTo(events, i, j);
      var p :| 0 <= p < |ordered| && ordered[p] == k;
      assert Listed(events, ordered[..p], events[j].id);
      var q :| 0 <= q < p && events[ordered[..p][q]].id == events[j].id;
      assert ordered[q] in ordered;
      SameIdSameEvent(events, ordered[q], j);
      ListedHoldsAncestors(events, ordered, i, j);
    }
  }

  lemma SameIdSameEvent(events: seq<Event>, i: nat, j: nat)
    requires UniqueIds(events) && i < |events| && j < |events| && events[i].id == events[j].id
    ensures i == j
  {
  }

  class Walk {
    const events: seq<Event>
    const byId: map<string, nat>
    var ordered: seq<nat>
    var visited: set<string>

    ghost predicate Valid()
      reads this
    {
      && IsLog(events) && byId == ById(events) && ParentsFirst(events, ordered)
      && forall id :: id in visited <==> Listed(events, ordered, id)
    }

    constructor (log: seq<Event>)
      requires IsLog(log)
      ensures Valid() && events == log && ordered == []
    {
      events, byId, ordered, visited := log, ById(log), [], {};
    }

    /** Lists what led to event k and is not listed yet, parents first, and then k itself. */
    method Visit(k: nat)
      requires Valid() && k < |events|
      modifies `ordered, `visited
      ensures Valid() && old(ordered) <= ordered && Listed(events, ordered, events[k].id)
      ensures AllLedTo(events, ordered, |old(ordered)|, k, k + 1)
      decreases k, 2
    {
      if events[k].id in visited {
        return;
      }
      assert !Listed(events, ordered, events[k].id);
      VisitParents(k);
      StillNotListed(events, old(ordered), ordered, k);
      Append(k);
      assert ordered[|ordered| - 1] == k;
    }

    /** Marks and lists an event whose parents are listed. */
    method Append(k: nat)
      requires Valid() && k < |events| && !Listed(events, ordered, events[k].id)
      requires forall id :: id in events[k].parentIds ==> Listed(events, ordered, id)
      modifies `ordered, `visited
      ensures Valid() && ordered == old(ordered) + [k]
    {
      visited := visited + {events[k].id};
      AppendedParentsFirst(events, ordered, k);
      AppendedListed(events, ordered, k);
      ordered := ordered + [k];
    }

    method VisitParents(k: nat)
      requires Valid() && k < |events|
      modifies `ordered, `visited
      ensures Valid() && old(ordered) <= ordered
      ensures AllLedTo(events, ordered, |old(ordered)|, k, k)
      ensures forall id :: id in events[k].parentIds ==> Listed(events, ordered, id)
      decreases k, 1
    {
      var parents := events[k].parentIds;
      for i := 0 to |parents|
        invariant Valid() && old(ordered) <= ordered
        invariant AllLedTo(events, ordered, |old(ordered)|, k, k)
        invariant forall j :: 0 <= j < i ==> Listed(events, ordered, parents[j])
      {
        VisitParent(k, i, |old(ordered)|);
      }
    }

    method VisitParent(k: nat, i: nat, ghost start: nat)
      requires Valid() && k < |events| && i < |events[k].parentIds| && start <= |ordered|
      requires AllLedTo(events, ordered, start, k, k)
      requires forall j :: 0 <= j < i ==> Listed(events, ordered, events[k].parentIds[j])
      modifies `ordered, `visited
      ensures Valid() && old(ordered) <= ordered
      ensures AllLedTo(events, ordered, start, k, k)
      ensures forall j :: 0 <= j <= i ==> Listed(events, ordered, events[k].parentIds[j])
      decreases k, 0
    {
      var parentId := events[k].parentIds[i];
      assert parentId in events[k].parentIds;
      ParentPosition(events, k, parentId);
      if parentId in byId {
        ghost var before := ordered;
        Visit(byId[parentId]);
        ParentsLedTo(events, before, ordered, start, byId[parentId], k);
        AllStayListed(events, before, ordered, events[k].parentIds[..i]);
      }
    }
  }

  /** Everything listed from position `from` on led to event k and lies before `bound`. */
  ghost predicate AllLedTo(events: seq<Event>, ordered: seq<nat>, from: nat, k: nat, bound: nat)
    requires k < |events|
  {
    forall p :: from <= p < |ordered| ==> ordered[p] < bound && LedTo(events, ordered[p], k)
  }

  lemma StillNotListed(events: seq<Event>, before: seq<nat>, after: seq<nat>, k: nat)
    requires UniqueIds(events) && k < |events| && before <= after && !Listed(events, before, events[k].id)
    requires AllLedTo(events, after, |before|, k, k)
    ensures !Listed(events, after, events[k].id)
  {
    forall q | 0 <= q < |after| && after[q] < |events|
      ensures events[after[q]].id != events[k].id
    {
      assert q < |before| ==> before[q] == after[q];
    }
  }

  lemma AppendedParentsFirst(events: seq<Event>, ordered: seq<nat>, k: nat)
    requires ParentsFirst(events, ordered) && k < |events| && !Listed(events, ordered, events[k].id)
    requires forall id :: id in events[k].parentIds ==> Listed(events, ordered, id)
    ensures ParentsFirst(events, ordered + [k])
  {
    var next := ordered + [k];
    assert next[..|ordered|] == ordered;
    forall p, id | 0 <= p < |next| && id in events[next[p]].parentIds
      ensures Listed(events, next[..p], id)
    {
      assert p < |ordered| ==> next[..p] == ordered[..p];
    }
    forall p, q | 0 <= p < q < |next|
      ensures next[p] != next[q]
    {
      assert q == |ordered| ==> events[ordered[p]].id != events[k].id;
    }
  }

  lemma AppendedListed(events: seq<Event>, ordered: seq<nat>, k: nat)
    requires k < |events|
    ensures forall id :: Listed(events, ordered + [k], id) <==> Listed(events, ordered, id) || id == events[k].id
  {
    forall id
      ensures Listed(events, ordered + [k], id) <==> Listed(events, ordered, id) || id == events[k].id
    {
      assert (ordered + [k])[|ordered|] == k;
      if Listed(events, ordered, id) {
        ListedStays(events, ordered, ordered + [k], id);
      }
    }
  }

  /** What led to a parent of k led to k. */
  lemma ParentsLedTo(events: seq<Event>, before: seq<nat>, after: seq<nat>, from: nat, j: nat, k: nat)
    requires k < |events| && j < k && events[j].id in events[k].parentIds && before <= after && from <= |before|
    requires AllLedTo(events, before, from, k, k) && AllLedTo(events, after, |before|, j, j + 1)
    ensures AllLedTo(events, after, from, k, k)
  {
    forall p | from <= p < |after|
      ensures after[p] < k && LedTo(events, after[p], k)
    {
      assert p < |before| ==> after[p] == before[p];
    }
  }

  lemma AllStayListed(events: seq<Event>, before: seq<nat>, after: seq<nat>, ids: seq<string>)
    requires before <= after && forall j :: 0 <= j < |ids| ==> Listed(events, before, ids[j])
    ensures forall j :: 0 <= j < |ids| ==> Listed(events, after, ids[j])
  {
    forall j | 0 <= j < |ids|
      ensures Listed(events, after, ids[j])
    {
      ListedStays(events, before, after, ids[j]);
    }
  }

  /** Position of the first event with this id. */
  function FindEvent(events: seq<Event>, id: string): (r: Option<nat>)
    ensures r.Some? ==> r.value < |events| && events[r.value].id == id
    ensures r.None? ==> !HasId(events, id)
  {
    if events == [] then None
    else
      var before := FindEvent(events[..|events| - 1], id);
      if before.Some? then before
      else if events[|events| - 1].id == id then Some(|events| - 1)
      else
        assert forall i :: 0 <= i < |events| - 1 ==> events[..|events| - 1][i] == events[i];
        None
  }

  /**
   The chain of a selected event: exactly the events that led to it and the event itself,
   each once, every event behind its parents. Nothing for an unknown event.
   */
  method ChainFor(events: seq<Event>, selectedId: Option<string>) returns (chain: seq<nat>)
    requires IsLog(events)
    ensures ParentsFirst(events, chain)
    ensures (selectedId.None? || !HasId(events, selectedId.value)) ==> chain == []
    ensures forall k: nat :: k < |events| && selectedId == Some(events[k].id) ==>
                               forall i: nat :: i in chain <==> LedTo(events, i, k)
  {
    chain := [];
    if selectedId.None? {
      return;
    }
    var selected := FindEvent(events, selectedId.value);
    if selected.None? {
      return;
    }
    var k := selected.value;
    var walk := new Walk(events);
    walk.Visit(k);
    chain := walk.ordered;
    ChainIsAncestry(events, chain, k);
    forall other: nat | other < |events| && selectedId == Some(events[other].id)
      ensures other == k
    {
      SameIdSameEvent(events, other, k);
    }
  }

  lemma ChainIsAncestry(events: seq<Event>, chain: seq<nat>, k: nat)
    requires IsLog(events) && ParentsFirst(events, chain) && k < |events|
    requires Listed(events, chain, events[k].id) && AllLedTo(events, chain, 0, k, k + 1)
    ensures forall i: nat :: i in chain <==> LedTo(events, i, k)
  {
    var q :| 0 <= q < |chain| && chain[q] < |events| && events[chain[q]].id == events[k].id;
    SameIdSameEvent(events, chain[q], k);
    assert k in chain;
    forall i: nat | LedTo(events, i, k)
      ensures i in chain
    {
      ListedHoldsAncestors(events, chain, i, k);
    }
  }
}
