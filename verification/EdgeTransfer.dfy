/**
 What one edge does to the traffic of one request class in one second: the edge model
 derived from the kinds at its ends, and the split of what is attempted into what
 arrives, what the transport loses and what the target turns away.
 */
module EdgeTransfer {
  import opened Numbers
  import opened Architecture

  datatype Profile = Profile(readRatio: real, cacheableShare: real, criticalShare: real, databaseQueries: real)

  datatype EdgeModel = EdgeModel(
    trafficShare: real, survivalRate: real,
    localBase: real, localCacheCoefficient: real, forwardBase: real, forwardCacheCoefficient: real,
    cacheTarget: bool, asyncQueueTarget: bool, asynchronous: bool, retryPressureFactor: real)

  /** Work offered to the target: what is attempted, what survives the transport, what the target accepts. */
  datatype LocalWork = LocalWork(attempted: real, synchronous: real, delivered: real, accepted: real)

  /** What passes over the edge itself. */
  datatype Transport = Transport(attempted: real, synchronous: real, throughput: real, transportLost: real,
                                 targetUnavailable: real)

  /** Flow that the target can pass on to later nodes. */
  datatype Onward = Onward(flow: real, synchronous: real)

  datatype Transfer = Transfer(work: LocalWork, transport: Transport, onward: Onward, cacheHits: real,
                               cacheMisses: real)

  /** The ranges the scenario schema gives a request class. */
  predicate ValidProfile(p: Profile) {
    UnitInterval(p.readRatio) && UnitInterval(p.cacheableShare) && UnitInterval(p.criticalShare)
        && p.databaseQueries >= 0.0
  }

  predicate ValidRates(edge: Edge) {
    UnitInterval(Share(edge)) && UnitInterval(LossRate(edge))
  }

  function RetryPressureFactor(node: Node): (r: real)
  {
    match node.config.behavior.resilience
    case None => 0.0
    case Some(resilience) =>
      var factor := resilience.maxRetries.GetOr(0) as real * 0.22;
      var jittered := if resilience.jitter.GetOr(false) then factor * 0.84 else factor;
      var backedOff := if resilience.backoffBaseMs.GetOr(0) >= 100 then jittered * 0.84 else jittered;
      var broken := if resilience.circuitBreaker.GetOr(false) then backedOff * 0.52 else backedOff;
      var shed := if resilience.loadSheddingThreshold.GetOr(0.0) != 0.0 then broken * 0.62 else broken;
      if resilience.bulkhead.GetOr(false) then shed * 0.72 else shed
  }

  datatype Factors = Factors(localBase: real, localCacheCoefficient: real, forwardBase: real,
                             forwardCacheCoefficient: real)

  /** Work done at the target and flow passed on, per unit offered, by the kinds at the two ends. */
  function FactorsFor(source: Kind, target: Kind, p: Profile, coverage: real): Factors {
    match target
    case Dns => Factors(1.0 / 120.0, 0.0, 1.0, 0.0)
    case Cache =>
      var base := if source.Cache? then 1.0 else p.readRatio;
      Factors(base, 0.0, base, Portion(base, p.cacheableShare))
    case Database =>
      var queries := MaxReal(0.0, p.databaseQueries);
      if source.Cache? then Factors(queries, 0.0, queries, 0.0)
      else if source.Worker? || source.Queue? || source.Stream? then Factors(1.0, 0.0, 1.0, 0.0)
      else
        var coefficient := Portion(Portion(Portion(p.readRatio, p.cacheableShare), coverage), queries);
        Factors(queries, coefficient, queries, coefficient)
    case Queue => QueueFactors(source, p)
    case Stream => QueueFactors(source, p)
    case ObjectStore => Factors(0.06, 0.0, 0.06, 0.0)
    case ThirdParty => Factors(0.12, 0.0, 0.12, 0.0)
    case _ => Factors(1.0, 0.0, 1.0, 0.0)
  }

  function QueueFactors(source: Kind, p: Profile): Factors {
    var base := if source.Queue? || source.Stream? then 1.0
        else Portion(1.0 - p.readRatio, 0.2 + p.criticalShare * 0.35);
    Factors(base, 0.0, base, 0.0)
  }

  /** On an authored route every edge passes everything on, except what a cache answers. */
  function FixedRouteFactors(target: Kind, p: Profile): Factors {
    Factors(1.0, 0.0, 1.0, if target.Cache? then Portion(p.readRatio, p.cacheableShare) else 0.0)
  }

  function ModelOf(source: Node, target: Node, edge: Edge, p: Profile, coverage: real, edgeEnabled: bool,
                   fixedRoute: bool): EdgeModel {
    var f := if fixedRoute then FixedRouteFactors(target.kind, p)
        else FactorsFor(source.kind, target.kind, p, coverage);
    EdgeModel(
      if !edgeEnabled then 0.0 else if fixedRoute then 1.0 else Share(edge),
      1.0 - LossRate(edge),
      f.localBase, f.localCacheCoefficient, f.forwardBase, f.forwardCacheCoefficient,
      target.kind.Cache?,
      edge.asynchronous && (target.kind.Queue? || target.kind.Stream?),
      edge.asynchronous,
      RetryPressureFactor(source))
  }

  function LocalFactor(model: EdgeModel, hitRate: real): (r: real)
    ensures r >= 0.0
  {
    MaxReal(0.0, model.localBase - Portion(model.localCacheCoefficient, hitRate))
  }

  function ForwardedFactor(model: EdgeModel, hitRate: real): (r: real)
    ensures r >= 0.0
  {
    MaxReal(0.0, model.forwardBase - Portion(model.forwardCacheCoefficient, hitRate))
  }

  /** What an edge attempts for a class: its share of what the source forwards, and the pending retries. */
  function Attempted(model: EdgeModel, forward: real, retry: real): real {
    Portion(forward, model.trafficShare) + retry
  }

  function AttemptedSynchronous(model: EdgeModel, synchronous: real, synchronousRetry: real): real {
    if model.asynchronous then 0.0 else Portion(synchronous, model.trafficShare) + synchronousRetry
  }

  /** What is left of an amount after the transport and at the target. */
  function Delivered(model: EdgeModel, amount: real, targetFactor: real): real {
    Portion(Portion(amount, model.survivalRate), targetFactor)
  }

  function WorkAt(model: EdgeModel, localFactor: real, attempted: real, synchronous: real,
                  targetFactor: real): LocalWork {
    var offered := Portion(attempted, localFactor);
    LocalWork(offered, Portion(synchronous, localFactor), Portion(offered, model.survivalRate),
              Delivered(model, offered, targetFactor))
  }

  function TransportOver(model: EdgeModel, factor: real, attempted: real, synchronous: real,
                         targetFactor: real): Transport {
    var offered := Portion(attempted, factor);
    var transported := Portion(offered, model.survivalRate);
    var throughput := Delivered(model, offered, targetFactor);
    Transport(offered, Portion(synchronous, factor), throughput, offered - transported, transported - throughput)
  }

  function OnwardFlow(model: EdgeModel, forwardedFactor: real, attempted: real, synchronous: real,
                      targetFactor: real): Onward {
    Onward(Delivered(model, Portion(attempted, forwardedFactor), targetFactor),
           Delivered(model, Portion(synchronous, forwardedFactor), targetFactor))
  }

  function Split(model: EdgeModel, localFactor: real, forwardedFactor: real, attempted: real, synchronous: real,
                 targetFactor: real): Transfer {
    var work := WorkAt(model, localFactor, attempted, synchronous, targetFactor);
    var onward := OnwardFlow(model, forwardedFactor, attempted, synchronous, targetFactor);
    Transfer(
      work, TransportOver(model, MaxReal(localFactor, forwardedFactor), attempted, synchronous, targetFactor), onward,
      if model.cacheTarget then MaxReal(0.0, work.accepted - onward.flow) else 0.0,
      if model.cacheTarget then onward.flow else 0.0)
  }

  function TransferOver(model: EdgeModel, hitRate: real, forward: real, synchronous: real, retry: real,
                        synchronousRetry: real, targetFactor: real): Transfer {
    Split(model, LocalFactor(model, hitRate), ForwardedFactor(model, hitRate),
          Attempted(model, forward, retry), AttemptedSynchronous(model, synchronous, synchronousRetry), targetFactor)
  }

  // ---------------------------------------------------------------- laws

  predicate ValidModel(model: EdgeModel) {
    && UnitInterval(model.trafficShare) && UnitInterval(model.survivalRate)
    && model.forwardCacheCoefficient >= 0.0 && model.retryPressureFactor >= 0.0
    && (model.cacheTarget ==> model.localCacheCoefficient == 0.0 && 0.0 <= model.forwardBase == model.localBase)
  }

  lemma RetryPressureSign(node: Node)
    requires node.config.behavior.resilience.Some? ==> node.config.behavior.resilience.value.maxRetries.GetOr(0) >= 0
    ensures RetryPressureFactor(node) >= 0.0
    ensures RetryPressureFactor(node) > 0.0 <==>
              node.config.behavior.resilience.Some? && node.config.behavior.resilience.value.maxRetries.GetOr(0) > 0
  {
  }

  /** Every model built from a valid edge and profile is valid. */
  lemma ModelIsValid(source: Node, target: Node, edge: Edge, p: Profile, coverage: real, edgeEnabled: bool,
                     fixedRoute: bool)
    requires ValidRates(edge) && ValidProfile(p) && UnitInterval(coverage)
    requires source.config.behavior.resilience.Some? ==>
               source.config.behavior.resilience.value.maxRetries.GetOr(0) >= 0
    ensures ValidModel(ModelOf(source, target, edge, p, coverage, edgeEnabled, fixedRoute))
    ensures !fixedRoute ==> ModelOf(source, target, edge, p, coverage, edgeEnabled, fixedRoute).trafficShare
                            <= Share(edge)
  {
    RetryPressureSign(source);
    PortionSign(p.readRatio, p.cacheableShare);
    PortionSign(1.0, p.cacheableShare);
    PortionSign(Portion(p.readRatio, p.cacheableShare), coverage);
    PortionSign(Portion(Portion(p.readRatio, p.cacheableShare), coverage), MaxReal(0.0, p.databaseQueries));
  }

  /** A database that is asked several times per request; messages are written once each. */
  predicate Multiplies(source: Kind, target: Kind, p: Profile) {
    target.Database? && !source.Worker? && !source.Queue? && !source.Stream? && p.databaseQueries > 1.0
  }

  /** Only several queries per request make an edge pass on more than it is given, and without cache hits they do. */
  lemma OnlyQueriesMultiply(source: Node, target: Node, edge: Edge, p: Profile, coverage: real, edgeEnabled: bool,
                            fixedRoute: bool, hitRate: real)
    requires ValidProfile(p) && UnitInterval(coverage) && UnitInterval(hitRate)
    ensures fixedRoute || !Multiplies(source.kind, target.kind, p) ==>
              ForwardedFactor(ModelOf(source, target, edge, p, coverage, edgeEnabled, fixedRoute), hitRate) <= 1.0
    ensures !fixedRoute && Multiplies(source.kind, target.kind, p) ==>
              ForwardedFactor(ModelOf(source, target, edge, p, coverage, edgeEnabled, fixedRoute), 0.0) > 1.0
  {
    var f := if fixedRoute then FixedRouteFactors(target.kind, p)
        else FactorsFor(source.kind, target.kind, p, coverage);
    FactorSigns(source.kind, target.kind, p, coverage, fixedRoute);
    PortionSign(f.forwardCacheCoefficient, hitRate);
    PortionOfNothing(f.forwardCacheCoefficient);
  }

  lemma PortionOfNothing(amount: real)
    ensures Portion(amount, 0.0) == 0.0
  {
  }

  lemma FactorSigns(source: Kind, target: Kind, p: Profile, coverage: real, fixedRoute: bool)
    requires ValidProfile(p) && UnitInterval(coverage)
    ensures var f := if fixedRoute then FixedRouteFactors(target, p) else FactorsFor(source, target, p, coverage);
            && f.forwardCacheCoefficient >= 0.0
            && (fixedRoute || !Multiplies(source, target, p) ==> f.forwardBase <= 1.0)
            && (!fixedRoute && Multiplies(source, target, p) ==> f.forwardBase > 1.0)
  {
    PortionSign(p.readRatio, p.cacheableShare);
    PortionSign(1.0, p.cacheableShare);
    PortionSign(Portion(p.readRatio, p.cacheableShare), coverage);
    PortionSign(Portion(Portion(p.readRatio, p.cacheableShare), coverage), MaxReal(0.0, p.databaseQueries));
    PortionShrinks(1.0 - p.readRatio, 0.2 + p.criticalShare * 0.35);
  }

  /** A cache passes on no more than it accepts, so its hits are never cut off at zero. */
  lemma CachePassesOnLess(model: EdgeModel, hitRate: real)
    requires ValidModel(model) && model.cacheTarget && hitRate >= 0.0
    ensures ForwardedFactor(model, hitRate) <= LocalFactor(model, hitRate)
  {
    PortionSign(model.forwardCacheCoefficient, hitRate);
  }

  predicate TransportConserves(t: Transport) {
    && t.attempted == t.throughput + t.transportLost + t.targetUnavailable
    && t.throughput >= 0.0 && t.transportLost >= 0.0 && t.targetUnavailable >= 0.0
    && 0.0 <= t.synchronous <= t.attempted
  }

  predicate WorkShrinks(w: LocalWork) {
    0.0 <= w.accepted <= w.delivered <= w.attempted && 0.0 <= w.synchronous <= w.attempted
  }

  predicate Conserves(t: Transfer) {
    TransportConserves(t.transport) && WorkShrinks(t.work) && 0.0 <= t.onward.synchronous <= t.onward.flow
  }

  lemma DeliveredShrinks(model: EdgeModel, amount: real, targetFactor: real)
    requires amount >= 0.0 && UnitInterval(model.survivalRate) && UnitInterval(targetFactor)
    ensures 0.0 <= Delivered(model, amount, targetFactor) <= Portion(amount, model.survivalRate) <= amount
  {
    PortionShrinks(amount, model.survivalRate);
    PortionShrinks(Portion(amount, model.survivalRate), targetFactor);
  }

  lemma DeliveredOfPart(model: EdgeModel, part: real, whole: real, targetFactor: real)
    requires 0.0 <= part <= whole && model.survivalRate >= 0.0 && targetFactor >= 0.0
    ensures 0.0 <= Delivered(model, part, targetFactor) <= Delivered(model, whole, targetFactor)
  {
    PortionOfPart(part, whole, model.survivalRate);
    PortionOfPart(Portion(part, model.survivalRate), Portion(whole, model.survivalRate), targetFactor);
  }

  lemma SynchronousAtMost(model: EdgeModel, forward: real, synchronous: real, retry: real, synchronousRetry: real)
    requires ValidModel(model) && 0.0 <= synchronous <= forward && 0.0 <= synchronousRetry <= retry
    ensures 0.0 <= AttemptedSynchronous(model, synchronous, synchronousRetry) <= Attempted(model, forward, retry)
  {
    PortionOfPart(synchronous, forward, model.trafficShare);
  }

  lemma WorkAtShrinks(model: EdgeModel, localFactor: real, attempted: real, synchronous: real, targetFactor: real)
    requires UnitInterval(model.survivalRate) && UnitInterval(targetFactor) && localFactor >= 0.0
    requires 0.0 <= synchronous <= attempted
    ensures WorkShrinks(WorkAt(model, localFactor, attempted, synchronous, targetFactor))
  {
    PortionOfPart(synchronous, attempted, localFactor);
    DeliveredShrinks(model, Portion(attempted, localFactor), targetFactor);
  }

  lemma TransportOverConserves(model: EdgeModel, factor: real, attempted: real, synchronous: real, targetFactor: real)
    requires UnitInterval(model.survivalRate) && UnitInterval(targetFactor) && factor >= 0.0
    requires 0.0 <= synchronous <= attempted
    ensures TransportConserves(TransportOver(model, factor, attempted, synchronous, targetFactor))
  {
    PortionOfPart(synchronous, attempted, factor);
    DeliveredShrinks(model, Portion(attempted, factor), targetFactor);
  }

  lemma PortionOfRest(amount: real, rate: real)
    ensures amount - Portion(amount, rate) == Portion(amount, 1.0 - rate)
  {
  }

  /** The transport loses the rate it does not let through, the target the rest it does not serve. */
  lemma LossesByRate(model: EdgeModel, factor: real, attempted: real, synchronous: real, targetFactor: real)
    ensures var t := TransportOver(model, factor, attempted, synchronous, targetFactor);
            && t.transportLost == Portion(t.attempted, 1.0 - model.survivalRate)
            && t.targetUnavailable == Portion(t.attempted - t.transportLost, 1.0 - targetFactor)
            && t.throughput == Portion(t.attempted - t.transportLost, targetFactor)
  {
    var offered := Portion(attempted, factor);
    PortionOfRest(offered, model.survivalRate);
    PortionOfRest(Portion(offered, model.survivalRate), targetFactor);
  }

  lemma OnwardFlowPart(model: EdgeModel, forwardedFactor: real, attempted: real, synchronous: real, targetFactor: real)
    requires model.survivalRate >= 0.0 && targetFactor >= 0.0 && forwardedFactor >= 0.0
    requires 0.0 <= synchronous <= attempted
    ensures var onward := OnwardFlow(model, forwardedFactor, attempted, synchronous, targetFactor);
            0.0 <= onward.synchronous <= onward.flow
  {
    PortionOfPart(synchronous, attempted, forwardedFactor);
    DeliveredOfPart(model, Portion(synchronous, forwardedFactor), Portion(attempted, forwardedFactor), targetFactor);
  }

  /** Attempted equals arrived plus lost plus turned away, and the synchronous part stays a part. */
  lemma TransferConserves(model: EdgeModel, hitRate: real, forward: real, synchronous: real, retry: real,
                          synchronousRetry: real, targetFactor: real)
    requires ValidModel(model) && UnitInterval(targetFactor)
    requires 0.0 <= synchronous <= forward && 0.0 <= synchronousRetry <= retry
    ensures Conserves(TransferOver(model, hitRate, forward, synchronous, retry, synchronousRetry, targetFactor))
  {
    SynchronousAtMost(model, forward, synchronous, retry, synchronousRetry);
    var attempted, attemptedSynchronous := Attempted(model, forward, retry),
        AttemptedSynchronous(model, synchronous, synchronousRetry);
    WorkAtShrinks(model, LocalFactor(model, hitRate), attempted, attemptedSynchronous, targetFactor);
    TransportOverConserves(model, MaxReal(LocalFactor(model, hitRate), ForwardedFactor(model, hitRate)), attempted,
                           attemptedSynchronous, targetFactor);
    OnwardFlowPart(model, ForwardedFactor(model, hitRate), attempted, attemptedSynchronous, targetFactor);
  }

  predicate CacheBalanced(t: Transfer) {
    t.cacheHits + t.cacheMisses == t.work.accepted && t.cacheHits >= 0.0 && t.cacheMisses >= 0.0
  }

  lemma OnwardAtMostAccepted(model: EdgeModel, localFactor: real, forwardedFactor: real, attempted: real,
                             synchronous: real, targetFactor: real)
    requires model.survivalRate >= 0.0 && targetFactor >= 0.0 && attempted >= 0.0
    requires 0.0 <= forwardedFactor <= localFactor
    ensures 0.0 <= OnwardFlow(model, forwardedFactor, attempted, synchronous, targetFactor).flow
                <= WorkAt(model, localFactor, attempted, synchronous, targetFactor).accepted
  {
    PortionSign(attempted, forwardedFactor);
    PortionOfLess(attempted, forwardedFactor, localFactor);
    DeliveredOfPart(model, Portion(attempted, forwardedFactor), Portion(attempted, localFactor), targetFactor);
  }

  /** At a cache, hits plus misses are exactly the accepted traffic: cutting hits off at zero never applies. */
  lemma CacheSplits(model: EdgeModel, hitRate: real, forward: real, synchronous: real, retry: real,
                    synchronousRetry: real, targetFactor: real)
    requires ValidModel(model) && UnitInterval(targetFactor) && hitRate >= 0.0 && model.cacheTarget
    requires 0.0 <= forward && 0.0 <= retry
    ensures CacheBalanced(TransferOver(model, hitRate, forward, synchronous, retry, synchronousRetry, targetFactor))
  {
    AttemptedSign(model, forward, retry);
    CachePassesOnLess(model, hitRate);
    OnwardAtMostAccepted(model, LocalFactor(model, hitRate), ForwardedFactor(model, hitRate),
                         Attempted(model, forward, retry),
                         AttemptedSynchronous(model, synchronous, synchronousRetry), targetFactor);
  }

  /** At a cache, what passes over the edge is what the cache accepts. */
  lemma CacheThroughput(model: EdgeModel, hitRate: real, forward: real, synchronous: real, retry: real,
                        synchronousRetry: real, targetFactor: real)
    requires ValidModel(model) && model.cacheTarget && hitRate >= 0.0
    ensures var x := TransferOver(model, hitRate, forward, synchronous, retry, synchronousRetry, targetFactor);
            x.transport.throughput == x.work.accepted
  {
    CachePassesOnLess(model, hitRate);
    assert MaxReal(LocalFactor(model, hitRate), ForwardedFactor(model, hitRate)) == LocalFactor(model, hitRate);
  }

  lemma AttemptedSign(model: EdgeModel, forward: real, retry: real)
    requires ValidModel(model) && forward >= 0.0 && retry >= 0.0
    ensures Attempted(model, forward, retry) >= 0.0
  {
    PortionSign(forward, model.trafficShare);
  }

  lemma OnwardAtMost(model: EdgeModel, forwardedFactor: real, attempted: real, synchronous: real, targetFactor: real)
    requires attempted >= 0.0 && UnitInterval(forwardedFactor) && UnitInterval(model.survivalRate)
             && UnitInterval(targetFactor)
    ensures OnwardFlow(model, forwardedFactor, attempted, synchronous, targetFactor).flow <= attempted
  {
    PortionShrinks(attempted, forwardedFactor);
    DeliveredShrinks(model, Portion(attempted, forwardedFactor), targetFactor);
  }

  /** With a forwarded factor of at most one, an edge passes on at most what it attempts. */
  lemma ForwardsAtMostAttempted(model: EdgeModel, hitRate: real, forward: real, synchronous: real, retry: real,
                                synchronousRetry: real, targetFactor: real)
    requires ValidModel(model) && UnitInterval(targetFactor) && forward >= 0.0 && retry >= 0.0
    requires ForwardedFactor(model, hitRate) <= 1.0
    ensures TransferOver(model, hitRate, forward, synchronous, retry, synchronousRetry, targetFactor).onward.flow
            <= Attempted(model, forward, retry)
  {
    AttemptedSign(model, forward, retry);
    OnwardAtMost(model, ForwardedFactor(model, hitRate), Attempted(model, forward, retry),
                 AttemptedSynchronous(model, synchronous, synchronousRetry), targetFactor);
  }
}
