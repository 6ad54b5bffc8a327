/**
 The causal event log of a run. Every place that emits an event names as parents only
 events the log already holds, and an id is logged once; that makes the log a directed
 graph without cycles, listed with parents first.
 */
module CausalEvents {
  import opened Wrappers

  datatype Severity = Info | Warning | Critical

  datatype Event = Event(id: string, second: int, kind: string, severity: Severity, entityId: Option<string>,
                         parentIds: seq<string>)

  /** What the simulator can have observed, one constructor per place that emits. */
  datatype Occurrence =
    | Intervention(actionId: string, nodeId: string)
    | Incident(incidentId: string, incidentKind: string, targetId: Option<string>, recovery: bool)
    | CacheHitCollapse(cacheId: Option<string>)
    | LoadShedding(nodeId: string)
    | AutoscaleRequested(nodeId: string, atSecond: string)
    | Saturation(nodeId: string)
    | CacheCascade(nodeId: string)
    | Connections(nodeId: string)
    | Iops(nodeId: string)
    | RetryAmplification(apiId: Option<string>)
    | QueueBacklog(bufferId: Option<string>, aged: bool)

  /** How the parents of an event are chosen from the log. */
  datatype Parents = NoParents | LastMatching(matches: Event -> bool) | WhenEmitted(id: string)

  predicate OccursAt(text: string, part: string, i: nat) {
    i + |part| <= |text| && text[i..i + |part|] == part
  }

  predicate Contains(text: string, part: string) {
    exists i :: 0 <= i <= |text| && OccursAt(text, part, i)
  }

  predicate StartsWith(text: string, part: string) {
    part <= text
  }

  function EventId(o: Occurrence): string {
    match o
    case Intervention(actionId, _) => "intervention-" + actionId
    case Incident(incidentId, _, _, _) => "incident-" + incidentId
    case CacheHitCollapse(_) => "cache-hit-collapse"
    case LoadShedding(nodeId) => "load-shedding-" + nodeId
    case AutoscaleRequested(nodeId, atSecond) => "autoscale-" + nodeId + "-" + atSecond
    case Saturation(nodeId) => "saturation-" + nodeId
    case CacheCascade(nodeId) => "cache-cascade-" + nodeId
    case Connections(nodeId) => "connections-" + nodeId
    case Iops(nodeId) => "iops-" + nodeId
    case RetryAmplification(_) => "retry-amplification"
    case QueueBacklog(_, _) => "queue-backlog-growth"
  }

  function KindOf(o: Occurrence): string {
    match o
    case Intervention(_, _) => "operator-intervention"
    case Incident(_, kind, _, _) => kind
    case CacheHitCollapse(_) => "cache-miss-collapse"
    case LoadShedding(_) => "load-shedding"
    case AutoscaleRequested(_, _) => "autoscale-requested"
    case Saturation(_) => "resource-saturation"
    case CacheCascade(_) => "cache-cascade"
    case Connections(_) => "connection-exhaustion"
    case Iops(_) => "iops-saturation"
    case RetryAmplification(_) => "retry-storm"
    case QueueBacklog(_, _) => "queue-backlog"
  }

  function SeverityOf(o: Occurrence): Severity {
    match o
    case Intervention(_, _) => Info
    case Incident(_, _, _, recovery) => if recovery then Info else Warning
    case CacheHitCollapse(_) => Warning
    case LoadShedding(_) => Warning
    case AutoscaleRequested(_, _) => Info
    case QueueBacklog(_, aged) => if aged then Critical else Warning
    case _ => Critical
  }

  function EntityOf(o: Occurrence): Option<string> {
    match o
    case Intervention(_, nodeId) => Some(nodeId)
    case Incident(_, _, targetId, _) => targetId
    case CacheHitCollapse(cacheId) => cacheId
    case LoadShedding(nodeId) => Some(nodeId)
    case AutoscaleRequested(nodeId, _) => Some(nodeId)
    case Saturation(nodeId) => Some(nodeId)
    case CacheCascade(nodeId) => Some(nodeId)
    case Connections(nodeId) => Some(nodeId)
    case Iops(nodeId) => Some(nodeId)
    case RetryAmplification(apiId) => apiId
    case QueueBacklog(bufferId, _) => bufferId
  }

  function ParentsOf(o: Occurrence): Parents {
    match o
    case Intervention(_, _) => NoParents
    case Incident(_, _, _, _) => NoParents
    case CacheHitCollapse(_) => LastMatching((e: Event) => Contains(e.kind, "cache") || e.kind == "hot-key")
    case LoadShedding(nodeId) => WhenEmitted("saturation-" + nodeId)
    case AutoscaleRequested(_, _) => LastMatching((e: Event) => !e.severity.Info?)
    case Saturation(nodeId) => LastMatching((e: Event) => e.entityId == Some(nodeId) || StartsWith(e.kind, "cache"))
    case CacheCascade(_) => WhenEmitted("cache-hit-collapse")
    case Connections(nodeId) => WhenEmitted("saturation-" + nodeId)
    case Iops(nodeId) => WhenEmitted("saturation-" + nodeId)
    case RetryAmplification(_) => LastMatching((e: Event) => e.severity.Critical?)
    case QueueBacklog(_, _) =>
      LastMatching((e: Event) => Contains(e.kind, "queue") || Contains(e.kind, "consumer")
                   || Contains(e.kind, "partition"))
  }

  /** A cascade is only reported once the cache has collapsed. */
  predicate Reported(o: Occurrence, emitted: set<string>) {
    o.CacheCascade? ==> "cache-hit-collapse" in emitted
  }

  // ------------------------------------------------------------------- log

  ghost predicate UniqueIds(events: seq<Event>) {
    forall i, j :: 0 <= i < j < |events| ==> events[i].id != events[j].id
  }

  /** Every parent of an event is an earlier event of the log. */
  ghost predicate ParentsEarlier(events: seq<Event>) {
    forall k, p :: 0 <= k < |events| && p in events[k].parentIds ==> HasId(events[..k], p)
  }

  ghost predicate HasId(events: seq<Event>, id: string) {
    exists i :: 0 <= i < |events| && events[i].id == id
  }

  ghost predicate IsLog(events: seq<Event>) {
    UniqueIds(events) && ParentsEarlier(events)
  }

  /** Event i matches, and no later one does. */
  ghost predicate IsLastMatch(events: seq<Event>, second: int, matches: Event -> bool, i: nat)
    requires i < |events|
  {
    && events[i].second <= second && matches(events[i])
    && forall j :: i < j < |events| ==> !(events[j].second <= second && matches(events[j]))
  }

  /** Id of the last event up to this second that matches, if there is one. */
  function LastId(events: seq<Event>, second: int, matches: Event -> bool): (ids: seq<string>)
    ensures forall p :: p in ids ==> HasId(events, p)
    ensures ids == [] ==> forall i :: 0 <= i < |events| ==> !(events[i].second <= second && matches(events[i]))
    ensures ids != [] ==> exists i :: 0 <= i < |events| && ids == [events[i].id]
                                      && IsLastMatch(events, second, matches, i)
  {
    if events == [] then []
    else
      var last := events[|events| - 1];
      if last.second <= second && matches(last) then
        assert IsLastMatch(events, second, matches, |events| - 1);
        [last.id]
      else
        var before := LastId(events[..|events| - 1], second, matches);
        assert before != [] ==> LastMatchStays(events, second, matches, before);
        before
  }

  /** A last match among all but the newest event is one among all when the newest does not match. */
  ghost predicate LastMatchStays(events: seq<Event>, second: int, matches: Event -> bool, ids: seq<string>)
    requires events != []
  {
    exists i :: 0 <= i < |events| - 1 && ids == [events[i].id] && IsLastMatch(events, second, matches, i)
  }

  /** The parents an event gets from the log as it is. */
  ghost function ParentIdsIn(events: seq<Event>, parents: Parents, second: int): seq<string> {
    match parents
    case NoParents => []
    case LastMatching(matches) => LastId(events, second, matches)
    case WhenEmitted(id) => if HasId(events, id) then [id] else []
  }

  ghost function EventFor(events: seq<Event>, o: Occurrence, second: int): Event {
    Event(EventId(o), second, KindOf(o), SeverityOf(o), EntityOf(o), ParentIdsIn(events, ParentsOf(o), second))
  }

  class EventLog {
    var events: seq<Event>
    var emitted: set<string>

    ghost predicate Valid()
      reads this
    {
      IsLog(events) && forall id :: id in emitted <==> HasId(events, id)
    }

    constructor ()
      ensures Valid() && events == []
    {
      events, emitted := [], {};
    }

    /** Appends an event unless its id was emitted before. */
    method Emit(event: Event)
      requires Valid() && forall p :: p in event.parentIds ==> HasId(events, p)
      modifies this
      ensures Valid()
      ensures events == if event.id in old(emitted) then old(events) else old(events) + [event]
      ensures emitted == old(emitted) + {event.id}
    {
      if event.id in emitted {
        return;
      }
      ghost var before := events;
      emitted := emitted + {event.id};
      events := events + [event];
      assert events[..|before|] == before;
      forall k, p | 0 <= k < |events| && p in events[k].parentIds
        ensures HasId(events[..k], p)
      {
        assert k < |before| ==> events[..k] == before[..k];
      }
      forall id
        ensures id in emitted <==> HasId(events, id)
      {
        if HasId(before, id) {
          var i :| 0 <= i < |before| && before[i].id == id;
          assert events[i].id == id;
        }
        assert events[|before|].id == event.id;
      }
    }

    method ParentIds(parents: Parents, second: int) returns (ids: seq<string>)
      requires Valid()
      ensures forall p :: p in ids ==> HasId(events, p)
      ensures ids == ParentIdsIn(events, parents, second)
    {
      match parents
      case NoParents => ids := [];
      case LastMatching(matches) => ids := LastId(events, second, matches);
      case WhenEmitted(id) => ids := if id in emitted then [id] else [];
    }

    /** Reports an occurrence: the log stays a log, and grows by at most this event. */
    method Observe(o: Occurrence, second: int)
      requires Valid()
      modifies this
      ensures Valid()
      ensures events == if EventId(o) in old(emitted) || !Reported(o, old(emitted)) then old(events)
                        else old(events) + [EventFor(old(events), o, second)]
    {
      if !Reported(o, emitted) {
        return;
      }
      var parentIds := ParentIds(ParentsOf(o), second);
      Emit(Event(EventId(o), second, KindOf(o), SeverityOf(o), EntityOf(o), parentIds));
    }
  }

  lemma IdsStay(before: seq<Event>, after: seq<Event>)
    requires before <= after
    ensures forall id :: HasId(before, id) ==> HasId(after, id)
  {
    forall id | HasId(before, id)
      ensures HasId(after, id)
    {
      var i :| 0 <= i < |before| && before[i].id == id;
      assert after[i].id == id;
    }
  }

  /** A whole run, whatever is observed in whatever order, leaves a log. */
  method RecordRun(occurrences: seq<(Occurrence, int)>) returns (events: seq<Event>)
    ensures IsLog(events)
    ensures forall k :: 0 <= k < |occurrences| && !occurrences[k].0.CacheCascade? ==>
              HasId(events, EventId(occurrences[k].0))
  {
    var log := new EventLog();
    for i := 0 to |occurrences|
      invariant log.Valid()
      invariant forall k :: 0 <= k < i && !occurrences[k].0.CacheCascade? ==> EventId(occurrences[k].0) in log.emitted
    {
      ghost var before := log.events;
      log.Observe(occurrences[i].0, occurrences[i].1);
      IdsStay(before, log.events);
      assert |log.events| > |before| ==> log.events[|before|].id == EventId(occurrences[i].0);
    }
    events := log.events;
  }
}
