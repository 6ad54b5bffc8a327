/**
 The autoscaler and the load-shedding admission of one node, second by second: operator
 scale actions, arrival of pending capacity, bad-autoscaling incidents, admission, and
 the automatic scaling decision, in the order the simulator takes them.
 */
module Autoscaler {
  import opened Numbers
  import opened Wrappers

  datatype Policy = Policy(
    autoscale: bool, instances: int, maxInstances: int, minInstances: Option<int>,
    targetUtilization: real, cooldownSeconds: nat, startupSeconds: nat)

  /** An absent ready time is never, an absent scale time is long ago. */
  datatype Scale = Scale(active: int, pending: int, readyAt: Option<int>, lastScale: Option<int>)

  /**
   What a second brings: scale actions, magnitudes of bad-autoscaling incidents that start, and
   what the node measures.
   */
  datatype Frame = Frame(scaleTo: seq<int>, badStarts: seq<real>, badAutoscaling: bool, utilization: real,
                         offline: bool, sheddingThreshold: Option<real>)

  ghost predicate ValidPolicy(p: Policy) {
    1 <= p.instances <= p.maxInstances && (p.minInstances.Some? ==> 1 <= p.minInstances.value <= p.instances)
  }

  /** Scale actions are refused before the run when they leave the node's limits. */
  ghost predicate ValidFrame(p: Policy, f: Frame) {
    && (forall k :: 0 <= k < |f.scaleTo| ==> p.minInstances.GetOr(1) <= f.scaleTo[k] <= p.maxInstances)
    && (f.sheddingThreshold.Some? ==> f.sheddingThreshold.value >= 0.1)
  }

  function Since(second: int, last: Option<int>, seconds: int): bool {
    last.None? || second - last.value >= seconds
  }

  // ------------------------------------------------------------- the steps

  function Initial(p: Policy): Scale {
    Scale(p.instances, 0, None, None)
  }

  function Intervened(s: Scale, second: int, instances: int): Scale {
    Scale(instances, 0, None, Some(second))
  }

  function AfterActions(s: Scale, second: int, scaleTo: seq<int>): Scale {
    if scaleTo == [] then s
    else Intervened(AfterActions(s, second, scaleTo[..|scaleTo| - 1]), second, scaleTo[|scaleTo| - 1])
  }

  predicate IsReady(s: Scale, second: int) {
    s.pending > 0 && s.readyAt.Some? && second >= s.readyAt.value
  }

  function Landed(p: Policy, s: Scale, second: int): Scale {
    if IsReady(s, second) then Scale(Min(p.maxInstances, s.active + s.pending), 0, None, s.lastScale) else s
  }

  function Shrunk(s: Scale, magnitude: real): Scale {
    Scale(Max(1, (s.active as real / MaxReal(2.0, magnitude)).Floor), 0, None, s.lastScale)
  }

  function AfterBadStarts(s: Scale, magnitudes: seq<real>): Scale {
    if magnitudes == [] then s
    else Shrunk(AfterBadStarts(s, magnitudes[..|magnitudes| - 1]), magnitudes[|magnitudes| - 1])
  }

  predicate ScalesUp(p: Policy, s: Scale, second: int, f: Frame) {
    && p.autoscale && !f.badAutoscaling && f.utilization > p.targetUtilization
    && s.pending == 0 && Since(second, s.lastScale, p.cooldownSeconds) && s.active < p.maxInstances
  }

  predicate ScalesDown(p: Policy, s: Scale, second: int, f: Frame) {
    && p.autoscale && f.utilization < p.targetUtilization * 0.35
    && Since(second, s.lastScale, p.cooldownSeconds * 2) && s.active > p.minInstances.GetOr(p.instances)
  }

  /** Thirty-five percent more, rounded up, at least one, within the maximum. */
  function Requested(p: Policy, active: int): int {
    Min(p.maxInstances - active, Max(1, (7 * active + 19) / 20))
  }

  /** Within the headroom it is the least number, at least one, that is thirty-five percent of what is active. */
  lemma RequestedIsLeast(p: Policy, active: int)
    requires 1 <= active < p.maxInstances
    ensures var more := Requested(p, active);
            && 1 <= more <= p.maxInstances - active
            && (more == p.maxInstances - active || 20 * more >= 7 * active)
            && (more > 1 ==> 20 * (more - 1) < 7 * active)
  {
  }

  function Decided(p: Policy, s: Scale, second: int, f: Frame): Scale {
    if ScalesUp(p, s, second, f) then
      Scale(s.active, Requested(p, s.active), Some(second + p.startupSeconds), Some(second))
    else if ScalesDown(p, s, second, f) then
      Scale(s.active - 1, s.pending, s.readyAt, Some(second))
    else s
  }

  /** The scale after the actions of a second and the arrival of pending capacity. */
  function Arrived(p: Policy, s: Scale, second: int, f: Frame): Scale {
    Landed(p, AfterActions(s, second, f.scaleTo), second)
  }

  function OneSecond(p: Policy, s: Scale, second: int, f: Frame): Scale {
    Decided(p, AfterBadStarts(Arrived(p, s, second, f), f.badStarts), second, f)
  }

  // --------------------------------------------------------------- invariant

  /** At least one instance, and never more than the maximum, counting what is pending. */
  ghost predicate Sound(p: Policy, s: Scale) {
    && 1 <= s.active && 0 <= s.pending && s.active + s.pending <= p.maxInstances
    && (s.pending > 0 <==> s.readyAt.Some?)
  }

  lemma {:induction false} ActionsKeepSound(p: Policy, s: Scale, second: int, scaleTo: seq<int>)
    requires ValidPolicy(p) && Sound(p, s)
    requires forall k :: 0 <= k < |scaleTo| ==> p.minInstances.GetOr(1) <= scaleTo[k] <= p.maxInstances
    ensures Sound(p, AfterActions(s, second, scaleTo))
  {
    if scaleTo != [] {
      ActionsKeepSound(p, s, second, scaleTo[..|scaleTo| - 1]);
    }
  }

  /** The cut at the maximum never binds when pending capacity arrives. */
  lemma LandingKeepsSound(p: Policy, s: Scale, second: int)
    requires Sound(p, s)
    ensures Sound(p, Landed(p, s, second))
    ensures IsReady(s, second) ==> Landed(p, s, second).active == s.active + s.pending
  {
  }

  lemma ShrinkingKeepsSound(p: Policy, s: Scale, magnitude: real)
    requires ValidPolicy(p) && Sound(p, s)
    ensures Sound(p, Shrunk(s, magnitude)) && Shrunk(s, magnitude).active <= s.active
  {
    var divisor, a := MaxReal(2.0, magnitude), s.active as real;
    QuotientAtMost(a, divisor);
    assert (a / divisor).Floor <= s.active;
  }

  lemma QuotientAtMost(a: real, divisor: real)
    requires a >= 0.0 && divisor >= 1.0
    ensures 0.0 <= a / divisor <= a
  {
    var q := a / divisor;
    assert q >= 0.0;
    assert q * (divisor - 1.0) >= 0.0;
    assert q * divisor == a;
  }

  lemma {:induction false} BadStartsKeepSound(p: Policy, s: Scale, magnitudes: seq<real>)
    requires ValidPolicy(p) && Sound(p, s)
    ensures Sound(p, AfterBadStarts(s, magnitudes))
  {
    if magnitudes != [] {
      var before := magnitudes[..|magnitudes| - 1];
      BadStartsKeepSound(p, s, before);
      ShrinkingKeepsSound(p, AfterBadStarts(s, before), magnitudes[|magnitudes| - 1]);
    }
  }

  lemma DecisionKeepsSound(p: Policy, s: Scale, second: int, f: Frame)
    requires ValidPolicy(p) && Sound(p, s)
    ensures Sound(p, Decided(p, s, second, f))
  {
  }

  lemma SecondKeepsSound(p: Policy, s: Scale, second: int, f: Frame)
    requires ValidPolicy(p) && ValidFrame(p, f) && Sound(p, s)
    ensures Sound(p, Arrived(p, s, second, f)) && Sound(p, OneSecond(p, s, second, f))
  {
    ActionsKeepSound(p, s, second, f.scaleTo);
    LandingKeepsSound(p, AfterActions(s, second, f.scaleTo), second);
    BadStartsKeepSound(p, Arrived(p, s, second, f), f.badStarts);
    DecisionKeepsSound(p, AfterBadStarts(Arrived(p, s, second, f), f.badStarts), second, f);
  }

  // -------------------------------------------------------------------- runs

  ghost predicate ValidRun(p: Policy, frames: seq<Frame>) {
    ValidPolicy(p) && forall k :: 0 <= k < |frames| ==> ValidFrame(p, frames[k])
  }

  /** The scale at the start of second k, when frame i belongs to second i. */
  ghost function At(p: Policy, frames: seq<Frame>, k: nat): Scale
    requires k <= |frames|
  {
    if k == 0 then Initial(p) else OneSecond(p, At(p, frames, k - 1), k - 1, frames[k - 1])
  }

  lemma {:induction false} AlwaysSound(p: Policy, frames: seq<Frame>, k: nat)
    requires ValidRun(p, frames) && k <= |frames|
    ensures Sound(p, At(p, frames, k))
  {
    if k > 0 {
      AlwaysSound(p, frames, k - 1);
      SecondKeepsSound(p, At(p, frames, k - 1), k - 1, frames[k - 1]);
    }
  }

  /** The scale that the automatic decision of second k looks at. */
  ghost function Deciding(p: Policy, frames: seq<Frame>, k: nat): Scale
    requires k < |frames|
  {
    AfterBadStarts(Arrived(p, At(p, frames, k), k, frames[k]), frames[k].badStarts)
  }

  ghost predicate ScaledUpAt(p: Policy, frames: seq<Frame>, k: nat)
    requires k < |frames|
  {
    ScalesUp(p, Deciding(p, frames, k), k, frames[k])
  }

  ghost predicate LastScaleWithin(s: Scale, low: int, high: int) {
    s.lastScale.Some? && low <= s.lastScale.value <= high
  }

  lemma {:induction false} ActionsTouchLastScale(s: Scale, second: int, scaleTo: seq<int>, low: int)
    requires LastScaleWithin(s, low, second)
    ensures LastScaleWithin(AfterActions(s, second, scaleTo), low, second)
  {
    if scaleTo != [] {
      ActionsTouchLastScale(s, second, scaleTo[..|scaleTo| - 1], low);
    }
  }

  lemma {:induction false} BadStartsKeepLastScale(s: Scale, magnitudes: seq<real>)
    ensures AfterBadStarts(s, magnitudes).lastScale == s.lastScale
  {
    if magnitudes != [] {
      BadStartsKeepLastScale(s, magnitudes[..|magnitudes| - 1]);
    }
  }

  lemma SecondTouchesLastScale(p: Policy, s: Scale, second: int, f: Frame, low: int)
    requires LastScaleWithin(s, low, second)
    ensures LastScaleWithin(OneSecond(p, s, second, f), low, second)
  {
    ActionsTouchLastScale(s, second, f.scaleTo, low);
    BadStartsKeepLastScale(Arrived(p, s, second, f), f.badStarts);
  }

  /** Once scaled at second i, the last scale time is i or later. */
  lemma {:induction false} LastScaleStays(p: Policy, frames: seq<Frame>, i: nat, k: nat)
    requires i < k <= |frames| && ScaledUpAt(p, frames, i)
    ensures LastScaleWithin(At(p, frames, k), i, k - 1)
    decreases k
  {
    if k > i + 1 {
      LastScaleStays(p, frames, i, k - 1);
      SecondTouchesLastScale(p, At(p, frames, k - 1), k - 1, frames[k - 1], i);
    }
  }

  /** Two automatic scale-ups are at least a cooldown apart. */
  lemma ScaleUpsAreSpaced(p: Policy, frames: seq<Frame>, i: nat, j: nat)
    requires i < j < |frames| && ScaledUpAt(p, frames, i) && ScaledUpAt(p, frames, j)
    ensures j - i >= p.cooldownSeconds
  {
    LastScaleStays(p, frames, i, j);
    var s, f := At(p, frames, j), frames[j];
    ActionsTouchLastScale(s, j, f.scaleTo, i);
    BadStartsKeepLastScale(Arrived(p, s, j, f), f.badStarts);
  }

  // ----------------------------------------------------------------- arrival

  /** Nothing cancels capacity pending since second i before it can arrive in second `due`. */
  ghost predicate Uncancelled(frames: seq<Frame>, i: nat, due: nat)
    requires due < |frames|
  {
    && (forall k :: i < k <= due ==> frames[k].scaleTo == [])
    && (forall k :: i < k < due ==> frames[k].badStarts == [])
  }

  /** The second in which capacity requested in second i arrives: never the second of the request itself. */
  function Due(p: Policy, i: nat): nat {
    i + Max(1, p.startupSeconds)
  }

  lemma {:induction false} PendingWaits(p: Policy, frames: seq<Frame>, i: nat, k: nat)
    requires ValidRun(p, frames) && Due(p, i) < |frames| && i < k <= Due(p, i)
    requires ScaledUpAt(p, frames, i) && Uncancelled(frames, i, Due(p, i))
    ensures At(p, frames, k).pending == Requested(p, Deciding(p, frames, i).active) > 0
    ensures At(p, frames, k).readyAt == Some(i + p.startupSeconds)
    decreases k
  {
    if k == i + 1 {
      AlwaysSound(p, frames, i);
      SecondKeepsSound(p, At(p, frames, i), i, frames[i]);
      BadStartsKeepSound(p, Arrived(p, At(p, frames, i), i, frames[i]), frames[i].badStarts);
    } else {
      PendingWaits(p, frames, i, k - 1);
      var s, f := At(p, frames, k - 1), frames[k - 1];
      assert f.scaleTo == [] && f.badStarts == [];
      assert AfterActions(s, k - 1, f.scaleTo) == s && !IsReady(s, k - 1);
      assert AfterBadStarts(s, f.badStarts) == s;
    }
  }

  /** Uncancelled, it arrives exactly then, and in full. */
  lemma PendingArrives(p: Policy, frames: seq<Frame>, i: nat)
    requires ValidRun(p, frames) && Due(p, i) < |frames|
    requires ScaledUpAt(p, frames, i) && Uncancelled(frames, i, Due(p, i))
    ensures var due := Due(p, i);
            var before, after := At(p, frames, due), Arrived(p, At(p, frames, due), due, frames[due]);
            && before.pending > 0 && after.pending == 0 && after.active == before.active + before.pending
            && forall k :: i < k < due ==> !IsReady(At(p, frames, k), k)
  {
    var due := Due(p, i);
    PendingWaits(p, frames, i, due);
    AlwaysSound(p, frames, due);
    assert AfterActions(At(p, frames, due), due, frames[due].scaleTo) == At(p, frames, due);
    LandingKeepsSound(p, At(p, frames, due), due);
    forall k | i < k < due
      ensures !IsReady(At(p, frames, k), k)
    {
      PendingWaits(p, frames, i, k);
    }
  }

  /** Capacity whose ready time is that of a request in second i becomes active in second j. */
  ghost predicate BecomesActive(p: Policy, frames: seq<Frame>, i: nat, j: nat)
    requires j < |frames|
  {
    var before, after := At(p, frames, j), Arrived(p, At(p, frames, j), j, frames[j]);
    && before.readyAt == Some(i + p.startupSeconds) && before.pending > 0
    && after.pending == 0 && after.active == before.active + before.pending
  }

  ghost predicate ActiveByEndOf(p: Policy, frames: seq<Frame>, i: nat, last: nat)
    requires last < |frames|
  {
    exists j :: i <= j <= last && BecomesActive(p, frames, i, j)
  }

  lemma {:induction false} BadStartsKeepReadyTime(s: Scale, magnitudes: seq<real>)
    ensures AfterBadStarts(s, magnitudes).readyAt == s.readyAt || AfterBadStarts(s, magnitudes).readyAt == None
  {
    if magnitudes != [] {
      BadStartsKeepReadyTime(s, magnitudes[..|magnitudes| - 1]);
    }
  }

  lemma {:induction false} ActionsKeepReadyTime(s: Scale, second: int, scaleTo: seq<int>)
    ensures AfterActions(s, second, scaleTo).readyAt == s.readyAt || AfterActions(s, second, scaleTo).readyAt == None
  {
    if scaleTo != [] {
      ActionsKeepReadyTime(s, second, scaleTo[..|scaleTo| - 1]);
    }
  }

  /** At the start of a second every ready time comes from an earlier one. */
  lemma {:induction false} ReadyTimesAreEarlier(p: Policy, frames: seq<Frame>, k: nat)
    requires k <= |frames|
    ensures At(p, frames, k).readyAt.Some? ==> At(p, frames, k).readyAt.value < k + p.startupSeconds
  {
    if k > 0 {
      ReadyTimesAreEarlier(p, frames, k - 1);
      var s, f := At(p, frames, k - 1), frames[k - 1];
      ActionsKeepReadyTime(s, k - 1, f.scaleTo);
      BadStartsKeepReadyTime(Arrived(p, s, k - 1, f), f.badStarts);
    }
  }

  /**
   By the end of the second it is ready in, uncancelled capacity has become active exactly
   when starting up takes any time at all.
   */
  lemma ArrivesWhenReadyIffStartupTakesTime(p: Policy, frames: seq<Frame>, i: nat)
    requires ValidRun(p, frames) && i + p.startupSeconds < |frames|
    requires ScaledUpAt(p, frames, i) && Uncancelled(frames, i, i + p.startupSeconds)
    ensures ActiveByEndOf(p, frames, i, i + p.startupSeconds) <==> p.startupSeconds >= 1
  {
    if p.startupSeconds >= 1 {
      PendingArrives(p, frames, i);
      PendingWaits(p, frames, i, Due(p, i));
      assert BecomesActive(p, frames, i, i + p.startupSeconds);
    } else {
      ReadyTimesAreEarlier(p, frames, i);
    }
  }

  /** Without startup time, capacity that is ready in second 0 arrives in second 1 only. */
  lemma InstantStartupArrivesLate()
    ensures exists p: Policy, frames: seq<Frame> ::
              && ValidRun(p, frames) && |frames| == 2 && ScaledUpAt(p, frames, 0)
              && At(p, frames, 1).pending > 0 && At(p, frames, 1).readyAt == Some(0)
              && Arrived(p, At(p, frames, 1), 1, frames[1]).pending == 0
  {
    var p := Policy(true, 1, 2, None, 0.7, 15, 0);
    var busy := Frame([], [], false, 0.9, false, None);
    var frames := [busy, busy];
    assert At(p, frames, 0) == Scale(1, 0, None, None);
    assert AfterActions(At(p, frames, 0), 0, []) == At(p, frames, 0);
    assert Deciding(p, frames, 0) == Scale(1, 0, None, None);
    assert At(p, frames, 1) == Scale(1, 1, Some(0), Some(0));
    assert AfterActions(At(p, frames, 1), 1, []) == At(p, frames, 1);
    assert ValidRun(p, frames) && |frames| == 2 && ScaledUpAt(p, frames, 0);
  }

  // --------------------------------------------------------------- admission

  const LOWEST_ADMISSION: real := 0.05
  const ADMISSION_STEP: real := 0.15

  predicate Sheds(f: Frame) {
    !f.offline && f.sheddingThreshold.Some? && f.utilization > f.sheddingThreshold.value
  }

  function NextAdmission(f: Frame, admission: real): real {
    if f.offline || f.sheddingThreshold.None? then 1.0
    else if f.utilization > f.sheddingThreshold.value then
      MinReal(1.0, MaxReal(LOWEST_ADMISSION, f.sheddingThreshold.value / MaxReal(f.utilization, 0.000001)))
    else MinReal(1.0, admission + ADMISSION_STEP)
  }

  ghost function AdmissionAt(frames: seq<Frame>, k: nat): real
    requires k <= |frames|
  {
    if k == 0 then 1.0 else NextAdmission(frames[k - 1], AdmissionAt(frames, k - 1))
  }

  lemma {:induction false} AdmissionStaysInRange(frames: seq<Frame>, k: nat)
    requires k <= |frames|
    ensures LOWEST_ADMISSION <= AdmissionAt(frames, k) <= 1.0
  {
    if k > 0 {
      AdmissionStaysInRange(frames, k - 1);
    }
  }

  lemma {:induction false} AdmissionRecovers(frames: seq<Frame>, k: nat, n: nat)
    requires k + n <= |frames| && forall j :: k <= j < k + n ==> !Sheds(frames[j])
    ensures AdmissionAt(frames, k + n) >= MinReal(1.0, LOWEST_ADMISSION + n as real * ADMISSION_STEP)
  {
    AdmissionStaysInRange(frames, k);
    if n > 0 {
      AdmissionRecovers(frames, k, n - 1);
      assert !Sheds(frames[k + n - 1]);
    }
  }

  /** Seven frames in a row without shedding bring admission back to everything. */
  lemma SevenFramesRestoreAdmission(frames: seq<Frame>, k: nat)
    requires k + 7 <= |frames| && forall j :: k <= j < k + 7 ==> !Sheds(frames[j])
    ensures AdmissionAt(frames, k + 7) == 1.0
  {
    AdmissionRecovers(frames, k, 7);
    AdmissionStaysInRange(frames, k + 7);
  }

  function Calm(): Frame {
    Frame([], [], false, 0.0, false, Some(1.0))
  }

  /** Six are not always enough. */
  lemma SixFramesMayNotSuffice()
    ensures exists frames: seq<Frame> ::
              |frames| == 7 && (forall j :: 1 <= j < 7 ==> !Sheds(frames[j])) && AdmissionAt(frames, 7) < 1.0
  {
    var frames := [Frame([], [], false, 100.0, false, Some(1.0)), Calm(), Calm(), Calm(), Calm(), Calm(), Calm()];
    assert AdmissionAt(frames, 1) == 0.05;
    assert AdmissionAt(frames, 2) == 0.2;
    assert AdmissionAt(frames, 3) == 0.35;
    assert AdmissionAt(frames, 4) == 0.5;
    assert AdmissionAt(frames, 5) == 0.65;
    assert AdmissionAt(frames, 6) == 0.8;
    assert AdmissionAt(frames, 7) == 0.95;
  }

  // ------------------------------------------------------------------ a node

  class NodeState {
    const policy: Policy
    var activeInstances: int
    var pendingInstances: int
    var pendingReadyAt: Option<int>
    var lastScaleSecond: Option<int>
    var admissionFactor: real

    function Scaling(): Scale
      reads this
    {
      Scale(activeInstances, pendingInstances, pendingReadyAt, lastScaleSecond)
    }

    ghost predicate Valid()
      reads this
    {
      ValidPolicy(policy) && Sound(policy, Scaling()) && LOWEST_ADMISSION <= admissionFactor <= 1.0
    }

    constructor (p: Policy)
      requires ValidPolicy(p)
      ensures Valid() && policy == p && Scaling() == Initial(p) && admissionFactor == 1.0
    {
      policy := p;
      activeInstances, pendingInstances, pendingReadyAt, lastScaleSecond := p.instances, 0, None, None;
      admissionFactor := 1.0;
    }

    method ApplyActions(second: int, scaleTo: seq<int>)
      modifies `activeInstances, `pendingInstances, `pendingReadyAt, `lastScaleSecond
      ensures Scaling() == AfterActions(old(Scaling()), second, scaleTo)
    {
      for k := 0 to |scaleTo|
        invariant Scaling() == AfterActions(old(Scaling()), second, scaleTo[..k])
      {
        assert scaleTo[..k + 1][..k] == scaleTo[..k];
        activeInstances := scaleTo[k];
        pendingInstances, pendingReadyAt := 0, None;
        lastScaleSecond := Some(second);
      }
      assert scaleTo[..|scaleTo|] == scaleTo;
    }

    method LandPending(second: int)
      modifies `activeInstances, `pendingInstances, `pendingReadyAt
      ensures Scaling() == Landed(policy, old(Scaling()), second)
    {
      if pendingInstances > 0 && pendingReadyAt.Some? && second >= pendingReadyAt.value {
        activeInstances := Min(policy.maxInstances, activeInstances + pendingInstances);
        pendingInstances, pendingReadyAt := 0, None;
      }
    }

    method SufferBadStarts(magnitudes: seq<real>)
      modifies `activeInstances, `pendingInstances, `pendingReadyAt
      ensures Scaling() == AfterBadStarts(old(Scaling()), magnitudes)
    {
      for k := 0 to |magnitudes|
        invariant Scaling() == AfterBadStarts(old(Scaling()), magnitudes[..k])
      {
        assert magnitudes[..k + 1][..k] == magnitudes[..k];
        activeInstances := Max(1, (activeInstances as real / MaxReal(2.0, magnitudes[k])).Floor);
        pendingInstances, pendingReadyAt := 0, None;
      }
      assert magnitudes[..|magnitudes|] == magnitudes;
    }

    method Decide(second: int, f: Frame)
      modifies `activeInstances, `pendingInstances, `pendingReadyAt, `lastScaleSecond
      ensures Scaling() == Decided(policy, old(Scaling()), second, f)
    {
      if policy.autoscale && !f.badAutoscaling && f.utilization > policy.targetUtilization && pendingInstances == 0
         && Since(second, lastScaleSecond, policy.cooldownSeconds) && activeInstances < policy.maxInstances {
        pendingInstances := Min(policy.maxInstances - activeInstances, Max(1, (7 * activeInstances + 19) / 20));
        pendingReadyAt := Some(second + policy.startupSeconds);
        lastScaleSecond := Some(second);
      } else if policy.autoscale && f.utilization < policy.targetUtilization * 0.35
                && Since(second, lastScaleSecond, policy.cooldownSeconds * 2)
                && activeInstances > policy.minInstances.GetOr(policy.instances) {
        activeInstances := activeInstances - 1;
        lastScaleSecond := Some(second);
      }
    }

    /** One second of the node. */
    method Advance(second: int, f: Frame)
      requires Valid() && ValidFrame(policy, f)
      modifies this
      ensures Valid() && Scaling() == OneSecond(policy, old(Scaling()), second, f)
      ensures admissionFactor == NextAdmission(f, old(admissionFactor))
    {
      SecondKeepsSound(policy, Scaling(), second, f);
      ApplyActions(second, f.scaleTo);
      LandPending(second);
      SufferBadStarts(f.badStarts);
      admissionFactor := NextAdmission(f, admissionFactor);
      Decide(second, f);
    }

    /** Seconds one after the other: the node is where the run is. */
    method Run(frames: seq<Frame>)
      requires Valid() && ValidRun(policy, frames) && Scaling() == Initial(policy) && admissionFactor == 1.0
      modifies this
      ensures Valid() && Scaling() == At(policy, frames, |frames|) && admissionFactor == AdmissionAt(frames, |frames|)
    {
      for k := 0 to |frames|
        invariant Valid() && Scaling() == At(policy, frames, k) && admissionFactor == AdmissionAt(frames, k)
      {
        Advance(k, frames[k]);
      }
    }
  }
}
