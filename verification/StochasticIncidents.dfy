/**
 The stochastic incident generator over whole runs. Which rules' triggers and draws would
 fire in a second is an input; caps, spacing and fresh ids hold whatever fires.
 */
module StochasticIncidents {
  import opened IncidentIds

  datatype Rule = Rule(id: string, enabled: bool, maxOccurrences: nat, cooldownSeconds: nat)

  datatype Plan = Plan(rule: Rule, occurrences: nat, nextEligibleSecond: int)

  datatype Record = Record(rule: nat, occurrence: nat, second: int, id: string)

  function RulesOf(plans: seq<Plan>): (rules: seq<Rule>)
    ensures |rules| == |plans| && forall r :: 0 <= r < |plans| ==> rules[r] == plans[r].rule
  {
    seq(|plans|, r requires 0 <= r < |plans| => plans[r].rule)
  }

  ghost function OccurrencesOf(generated: seq<Record>, r: nat): nat {
    if generated == [] then 0
    else OccurrencesOf(generated[..|generated| - 1], r) + (if generated[|generated| - 1].rule == r then 1 else 0)
  }

  lemma OccurrencesAdd(generated: seq<Record>, record: Record, r: nat)
    ensures OccurrencesOf(generated + [record], r) == OccurrencesOf(generated, r) + (if record.rule == r then 1 else 0)
  {
    assert (generated + [record])[..|generated|] == generated;
  }

  /** Occurrences of one rule are numbered from one and lie at least cooldown + 1 seconds apart. */
  ghost predicate Spaced(plans: seq<Plan>, generated: seq<Record>) {
    && (forall i :: 0 <= i < |generated| ==> generated[i].rule < |plans|)
    && forall i, j :: 0 <= i < j < |generated| && generated[i].rule == generated[j].rule ==>
                        && generated[j].second - generated[i].second >= plans[generated[i].rule].rule.cooldownSeconds
                           + 1
                        && generated[i].occurrence < generated[j].occurrence
  }

  /** The plan of every rule knows how often and when the rule last occurred. */
  ghost predicate PlansFollow(plans: seq<Plan>, generated: seq<Record>) {
    && (forall r :: 0 <= r < |plans| ==>
        plans[r].occurrences == OccurrencesOf(generated, r) <= plans[r].rule.maxOccurrences)
    && (forall i :: 0 <= i < |generated| ==> generated[i].rule < |plans|)
    && (forall i :: 0 <= i < |generated| ==>
                      && generated[i].second + plans[generated[i].rule].rule.cooldownSeconds + 1
                         <= plans[generated[i].rule].nextEligibleSecond
                      && generated[i].occurrence <= plans[generated[i].rule].occurrences)
  }

  ghost predicate OfEnabledRules(plans: seq<Plan>, generated: seq<Record>) {
    forall i :: 0 <= i < |generated| ==> generated[i].rule < |plans| && plans[generated[i].rule].rule.enabled
  }

  ghost predicate FreshIds(generated: seq<Record>, initial: set<string>, reserved: set<string>) {
    && initial <= reserved && |reserved| == |initial| + |generated|
    && (forall i :: 0 <= i < |generated| ==> generated[i].id in reserved && generated[i].id !in initial)
    && (forall i, j :: 0 <= i < j < |generated| ==> generated[i].id != generated[j].id)
  }

  ghost predicate FittingIds(generated: seq<Record>) {
    forall i :: 0 <= i < |generated| ==> |generated[i].id| <= ID_LENGTH
  }

  /** The turn of a rule: it may occur again, and its trigger and draw say so. */
  predicate IsDue(plans: seq<Plan>, second: int, fires: seq<bool>, r: nat)
    requires r < |plans| == |fires|
  {
    plans[r].rule.enabled && plans[r].occurrences < plans[r].rule.maxOccurrences
        && second >= plans[r].nextEligibleSecond && fires[r]
  }

  /** The rules below n whose turn it is, in their order. */
  ghost function DueRules(plans: seq<Plan>, second: int, fires: seq<bool>, n: nat): (due: seq<nat>)
    requires n <= |plans| == |fires|
    ensures forall k :: 0 <= k < |due| ==> due[k] < n && IsDue(plans, second, fires, due[k])
  {
    if n == 0 then []
    else DueRules(plans, second, fires, n - 1) + (if IsDue(plans, second, fires, n - 1) then [n - 1] else [])
  }

  lemma {:induction false} DueRulesGrow(plans: seq<Plan>, second: int, fires: seq<bool>, m: nat, n: nat)
    requires m <= n <= |plans| == |fires|
    ensures DueRules(plans, second, fires, m) <= DueRules(plans, second, fires, n)
    decreases n - m
  {
    if m < n {
      DueRulesGrow(plans, second, fires, m, n - 1);
    }
  }

  lemma DueRulesStep(plans: seq<Plan>, second: int, fires: seq<bool>, r: nat)
    requires r < |plans| == |fires|
    ensures r !in DueRules(plans, second, fires, r)
    ensures DueRules(plans, second, fires, r + 1)
            == if IsDue(plans, second, fires, r) then DueRules(plans, second, fires, r) + [r]
              else DueRules(plans, second, fires, r)
  {
  }

  /** Those that fit under the cap: all that are due, or as many as there is room for. */
  ghost function Fitting(due: seq<nat>, room: nat): seq<nat> {
    if |due| <= room then due else due[..room]
  }

  lemma FittingPart(part: seq<nat>, due: seq<nat>, room: nat)
    requires part <= due && |part| <= room && (part == due || |part| == room)
    ensures part == Fitting(due, room)
  {
  }

  lemma FittingTurns(plans: seq<Plan>, second: int, fires: seq<bool>, done: nat, room: nat)
    requires done <= |plans| == |fires| && |DueRules(plans, second, fires, done)| <= room
    requires done == |plans| || |DueRules(plans, second, fires, done)| == room
    ensures DueRules(plans, second, fires, done) == Fitting(DueRules(plans, second, fires, |plans|), room)
  {
    DueRulesGrow(plans, second, fires, done, |plans|);
    FittingPart(DueRules(plans, second, fires, done), DueRules(plans, second, fires, |plans|), room);
  }

  /**
   The rules that occur in a second: those whose turn it is, as many as there is room for; none
   when the model is off.
   */
  ghost function Chosen(on: bool, plans: seq<Plan>, second: int, fires: seq<bool>, room: nat): seq<nat>
    requires |fires| == |plans|
  {
    if on then Fitting(DueRules(plans, second, fires, |plans|), room) else []
  }

  lemma NoRoomNoneChosen(on: bool, plans: seq<Plan>, second: int, fires: seq<bool>, room: nat)
    requires |fires| == |plans| && (on ==> room == 0)
    ensures Chosen(on, plans, second, fires, room) == []
  {
  }

  function After(plan: Plan, second: int): Plan {
    Plan(plan.rule, plan.occurrences + 1, second + plan.rule.cooldownSeconds + 1)
  }

  /** One record per rule in `chosen`, in that order, each numbered after what its rule had before. */
  ghost predicate RecordsAdded(before: seq<Plan>, earlier: seq<Record>, chosen: seq<nat>, second: int,
                               generated: seq<Record>) {
    && earlier <= generated && |generated| == |earlier| + |chosen|
    && forall k :: 0 <= k < |chosen| ==>
                     && chosen[k] < |before| && generated[|earlier| + k].rule == chosen[k]
                     && generated[|earlier| + k].second == second
                     && generated[|earlier| + k].occurrence == before[chosen[k]].occurrences + 1
  }

  /** The plans after every rule in `chosen` has occurred once. */
  ghost function PlansAfter(before: seq<Plan>, chosen: seq<nat>, second: int): (plans: seq<Plan>)
    ensures |plans| == |before|
  {
    seq(|before|, r requires 0 <= r < |before| => if r in chosen then After(before[r], second) else before[r])
  }

  /** Every rule in `chosen` has occurred once, in that order, and no other. */
  ghost predicate HasOccurred(before: seq<Plan>, earlier: seq<Record>, chosen: seq<nat>, second: int,
                              plans: seq<Plan>, generated: seq<Record>) {
    RecordsAdded(before, earlier, chosen, second, generated) && plans == PlansAfter(before, chosen, second)
  }

  lemma NothingOccurred(plans: seq<Plan>, generated: seq<Record>, second: int)
    ensures HasOccurred(plans, generated, [], second, plans, generated)
  {
  }

  lemma PlansAfterSameRules(before: seq<Plan>, chosen: seq<nat>, second: int)
    ensures RulesOf(PlansAfter(before, chosen, second)) == RulesOf(before)
  {
  }

  lemma PlansAfterOneMore(before: seq<Plan>, chosen: seq<nat>, second: int, r: nat)
    requires r < |before| && r !in chosen
    ensures PlansAfter(before, chosen, second)[r] == before[r]
    ensures PlansAfter(before, chosen + [r], second)
            == PlansAfter(before, chosen, second)[r := After(before[r], second)]
  {
    var next := PlansAfter(before, chosen + [r], second);
    forall q | 0 <= q < |before|
      ensures next[q] == PlansAfter(before, chosen, second)[r := After(before[r], second)][q]
    {
      assert q in chosen + [r] <==> q in chosen || q == r;
    }
  }

  lemma RecordsOneMore(before: seq<Plan>, earlier: seq<Record>, chosen: seq<nat>, second: int, generated: seq<Record>,
                       record: Record)
    requires RecordsAdded(before, earlier, chosen, second, generated) && record.rule < |before|
    requires record.second == second && record.occurrence == before[record.rule].occurrences + 1
    ensures RecordsAdded(before, earlier, chosen + [record.rule], second, generated + [record])
  {
  }

  class Generator {
    const enabled: bool
    const maxGeneratedIncidents: nat
    const initialIds: set<string>
    var plans: seq<Plan>
    var generated: seq<Record>
    var incidentIds: set<string>

    ghost predicate Valid()
      reads this
    {
      && |generated| <= (if enabled then maxGeneratedIncidents else 0)
      && OfEnabledRules(plans, generated)
      && PlansFollow(plans, generated) && Spaced(plans, generated)
      && FreshIds(generated, initialIds, incidentIds)
      && (Roomy() ==> FittingIds(generated))
    }

    /** There are few enough ids for a numbered suffix to fit; a bound of 79 digits. */
    ghost predicate Roomy() {
      |Decimal(|initialIds| + maxGeneratedIncidents + 2)| < ID_LENGTH
    }

    constructor (on: bool, cap: nat, rules: seq<Rule>, scenarioIds: set<string>)
      ensures Valid() && RulesOf(plans) == rules && generated == [] && incidentIds == scenarioIds
      ensures enabled == on && maxGeneratedIncidents == cap && initialIds == scenarioIds
    {
      enabled, maxGeneratedIncidents, initialIds := on, cap, scenarioIds;
      plans := seq(|rules|, r requires 0 <= r < |rules| => Plan(rules[r], 0, 0));
      generated, incidentIds := [], scenarioIds;
    }

    /** A record with a free id; the id is reserved. */
    method NameIncident(r: nat, second: int) returns (record: Record, reserved: set<string>)
      requires Valid() && enabled && r < |plans| && |generated| < maxGeneratedIncidents
      ensures record.rule == r && record.occurrence == plans[r].occurrences + 1 && record.second == second
      ensures FreshIds(generated + [record], initialIds, reserved)
      ensures Roomy() ==> FittingIds(generated + [record])
    {
      var id;
      id, reserved := GeneratedIncidentId(plans[r].rule.id, plans[r].occurrences + 1, incidentIds);
      record := Record(r, plans[r].occurrences + 1, second, id);
      DecimalGrows(|incidentIds| + 2, |initialIds| + maxGeneratedIncidents + 2);
      OccurFresh(generated, initialIds, incidentIds, record);
    }

    /** Rule r occurs in this second. */
    method Occur(r: nat, second: int) returns (record: Record)
      requires Valid() && enabled && r < |plans| && plans[r].rule.enabled && |generated| < maxGeneratedIncidents
      requires plans[r].occurrences < plans[r].rule.maxOccurrences && second >= plans[r].nextEligibleSecond
      modifies `plans, `generated, `incidentIds
      ensures Valid() && RulesOf(plans) == RulesOf(old(plans))
      ensures generated == old(generated) + [record] && record.rule == r && record.second == second
      ensures record.occurrence == old(plans)[r].occurrences + 1
              && plans == old(plans)[r := After(old(plans)[r], second)]
    {
      var reserved;
      record, reserved := NameIncident(r, second);
      OccurFollows(plans, generated, r, record);
      OccurSpaced(plans, generated, r, record);
      plans, generated, incidentIds := plans[r := After(plans[r], second)], generated + [record], reserved;
    }

    /** Rule r takes its turn. */
    method TakeTurn(r: nat, second: int, fires: seq<bool>, ghost before: seq<Plan>, ghost earlier: seq<Record>)
      requires Valid() && enabled && |fires| == |plans| == |before| && r < |plans|
               && |generated| < maxGeneratedIncidents
      requires HasOccurred(before, earlier, DueRules(before, second, fires, r), second, plans, generated)
      modifies `plans, `generated, `incidentIds
      ensures Valid()
      ensures HasOccurred(before, earlier, DueRules(before, second, fires, r + 1), second, plans, generated)
    {
      DueRulesStep(before, second, fires, r);
      PlansAfterOneMore(before, DueRules(before, second, fires, r), second, r);
      if IsDue(plans, second, fires, r) {
        ghost var records := generated;
        var record := Occur(r, second);
        RecordsOneMore(before, earlier, DueRules(before, second, fires, r), second, records, record);
      }
    }

    /** All rules take their turns until the cap is reached; `done` of them have. */
    method TakeTurns(second: int, fires: seq<bool>) returns (ghost done: nat)
      requires Valid() && enabled && |fires| == |plans|
      modifies `plans, `generated, `incidentIds
      ensures Valid() && done <= |fires|
      ensures HasOccurred(old(plans), old(generated), DueRules(old(plans), second, fires, done), second, plans,
                          generated)
      ensures done == |fires| || |generated| == maxGeneratedIncidents
    {
      ghost var before, earlier := plans, generated;
      done := 0;
      NothingOccurred(before, earlier, second);
      for r := 0 to |fires|
        invariant Valid() && |plans| == |fires| && done == r
        invariant HasOccurred(before, earlier, DueRules(before, second, fires, r), second, plans, generated)
      {
        if |generated| >= maxGeneratedIncidents {
          return;
        }
        TakeTurn(r, second, fires, before, earlier);
        done := r + 1;
      }
    }

    /** One second: every rule whose turn it is occurs, in order, until the cap is reached. */
    method GenerateSecond(second: int, fires: seq<bool>) returns (ghost chosen: seq<nat>)
      requires Valid() && |fires| == |plans|
      modifies `plans, `generated, `incidentIds
      ensures Valid() && RulesOf(plans) == RulesOf(old(plans))
      ensures chosen == Chosen(enabled, old(plans), second, fires, maxGeneratedIncidents - |old(generated)|)
      ensures HasOccurred(old(plans), old(generated), chosen, second, plans, generated)
    {
      ghost var before, earlier, room := plans, generated, maxGeneratedIncidents - |generated|;
      if enabled && |generated| < maxGeneratedIncidents {
        ghost var done := TakeTurns(second, fires);
        FittingTurns(before, second, fires, done, room);
        chosen := DueRules(before, second, fires, done);
      } else {
        NothingOccurred(before, earlier, second);
        NoRoomNoneChosen(enabled, before, second, fires, room);
        chosen := [];
      }
      PlansAfterSameRules(before, chosen, second);
    }
  }

  /** Rule r may occur, and the record says that it does. */
  predicate IsOccurrence(plans: seq<Plan>, r: nat, record: Record)
    requires r < |plans|
  {
    && plans[r].occurrences < plans[r].rule.maxOccurrences && record.second >= plans[r].nextEligibleSecond
    && record.rule == r && record.occurrence == plans[r].occurrences + 1
  }

  lemma OccurFollows(plans: seq<Plan>, generated: seq<Record>, r: nat, record: Record)
    requires PlansFollow(plans, generated) && r < |plans| && IsOccurrence(plans, r, record)
    ensures PlansFollow(plans[r := After(plans[r], record.second)], generated + [record])
  {
    var after, all := plans[r := After(plans[r], record.second)], generated + [record];
    forall q | 0 <= q < |after|
      ensures after[q].occurrences == OccurrencesOf(all, q) <= after[q].rule.maxOccurrences
    {
      OccurrencesAdd(generated, record, q);
    }
  }

  lemma OccurSpaced(plans: seq<Plan>, generated: seq<Record>, r: nat, record: Record)
    requires PlansFollow(plans, generated) && Spaced(plans, generated) && r < |plans| && IsOccurrence(plans, r, record)
    ensures Spaced(plans[r := After(plans[r], record.second)], generated + [record])
  {
  }

  lemma OccurFresh(generated: seq<Record>, initial: set<string>, reserved: set<string>, record: Record)
    requires FreshIds(generated, initial, reserved) && record.id !in reserved
    ensures FreshIds(generated + [record], initial, reserved + {record.id})
  {
  }

  /** A whole run over any seconds and any outcome of triggers and draws. */
  method GenerateRun(on: bool, cap: nat, rules: seq<Rule>, scenarioIds: set<string>, seconds: seq<(int, seq<bool>)>)
    returns (generated: seq<Record>)
    requires forall k :: 0 <= k < |seconds| ==> |seconds[k].1| == |rules|
    ensures |generated| <= cap && (!on ==> generated == [])
    ensures forall r :: 0 <= r < |rules| ==> OccurrencesOf(generated, r) <= rules[r].maxOccurrences
    ensures forall i :: 0 <= i < |generated| ==> generated[i].rule < |rules| && rules[generated[i].rule].enabled
    ensures forall i, j :: 0 <= i < j < |generated| && generated[i].rule == generated[j].rule ==>
                             generated[j].second - generated[i].second >= rules[generated[i].rule].cooldownSeconds + 1
    ensures forall i, j :: 0 <= i < j < |generated| ==> generated[i].id != generated[j].id
    ensures forall i :: 0 <= i < |generated| ==> generated[i].id !in scenarioIds
    ensures |Decimal(|scenarioIds| + cap + 2)| < ID_LENGTH ==> FittingIds(generated)
  {
    var generator := new Generator(on, cap, rules, scenarioIds);
    for k := 0 to |seconds|
      invariant generator.Valid() && RulesOf(generator.plans) == rules
    {
      assert |RulesOf(generator.plans)| == |generator.plans|;
      ghost var chosen := generator.GenerateSecond(seconds[k].0, seconds[k].1);
    }
    assert forall r :: 0 <= r < |rules| ==> RulesOf(generator.plans)[r] == generator.plans[r].rule;
    generated := generator.generated;
  }
}
