/** The planner over the cache: what a sticky hit and a selected endpoint say about the writes before the plan. */
module StickyMemory {
  import opened Base
  import opened Catalog
  import opened HotState
  import opened HotCache
  import opened Evidence
  import opened Planner
  import opened RoutingLaws
  import opened RoutingOrder

  /** The hot state a planner sees after a run of writes, read at one moment of the server's clock. */
  ghost function View(writes: seq<Write>, clock: int): RouteHotState
  {
    RouteHotState(
      (t: string, e: string, v: Option<int>, now: int) => DrainedAt(Cached(writes), t, e, v, now, clock),
      (t: string, e: string, v: Option<int>, now: int) => HealthAt(Cached(writes), t, e, v, now, clock),
      (t: string, prj: Option<string>, a: string, h: string, v: Option<int>, now: int) =>
        StickyAt(Cached(writes), t, prj, a, h, v, now, clock))
  }

  /** What the planner asks the cache about. */
  ghost function AskedFor(q: PlanRequest, x: Context): Place
    requires q.affinityHash.Some?
  {
    StickyOf(q.actor.tenantId, q.actor.projectId, x.b.alias.id, q.affinityHash.value)
  }

  /** The write stored a mapping that is alive and of the config version asked for. */
  ghost predicate IsAlive(w: Write, q: PlanRequest, clock: int)
  {
    && w.record.Sticky? && clock < DropAt(w)
    && q.configVersion == Some(w.record.sticky.configVersion) && q.now < w.record.sticky.expiresAt
  }

  lemma RecordIsLastStored(q: PlanRequest, x: Context, writes: seq<Write>, clock: int)
    requires x.q == q && AllSeparable(writes) && q.hotState == View(writes, clock)
    requires q.affinityHash.Some? && x.b.policy.stickyTtlSeconds.Some? && Separable(AskedFor(q, x))
    ensures var last := LastStored(writes, AskedFor(q, x));
            StickyRecordFor(x)
            == if last.Some? && IsAlive(last.value, q, clock) then Some(last.value.record.sticky) else None
  {
    var place := AskedFor(q, x);
    ReadIsLastStored(writes, place, q.configVersion, q.now, clock);
    CacheIsPlainMap(writes, place);
    assert StickyRecordFor(x) == StickyAt(Cached(writes), place.tenantId, place.projectId, place.aliasId,
                                          place.affinityHash, q.configVersion, q.now, clock);
  }

  /** The mapping leads to a hit: it is of the current group, and the entry found for its target, a foremost one,
      is eligible on its endpoint. */
  ghost predicate StillServes(c: CatalogSnapshot, x: Context, record: StickyRecord)
  {
    && record.groupId == x.b.group.id
    && var found := StickyCandidate(Candidates(c, x.b.group.id), record.targetId);
    && found.Some? && LeastFor(c.groupTargets, x.b.group.id, record.targetId, found.value)
    && Evaluate(x, found.value).Eligible? && Evaluate(x, found.value).endpoint.id == record.endpointId
  }

  ghost predicate IsStickyHit(plan: RoutePlan) { plan.outcome.Selected? && plan.outcome.selection.stickyHit }

  lemma HitIffTried(x: Context, eval: Evaluator, candidates: seq<GroupTarget>)
    ensures IsStickyHit(PlanBound(x, eval, candidates)) <==> TrySticky(x, eval, candidates).Hit?
  {
  }

  lemma TriedIffServes(x: Context, eval: Evaluator, candidates: seq<GroupTarget>)
    ensures TrySticky(x, eval, candidates).Hit? <==>
            && StickyRecordFor(x).Some?
            && var record := StickyRecordFor(x).value;
            && record.groupId == x.b.group.id
            && var found := StickyCandidate(candidates, record.targetId);
            found.Some? && eval(found.value).Eligible? && eval(found.value).endpoint.id == record.endpointId
  {
  }

  lemma HitIffServes(c: CatalogSnapshot, x: Context)
    ensures TrySticky(x, EvaluatorOf(x), Candidates(c, x.b.group.id)).Hit? <==>
            StickyRecordFor(x).Some? && StillServes(c, x, StickyRecordFor(x).value)
  {
    TriedIffServes(x, EvaluatorOf(x), Candidates(c, x.b.group.id));
    if StickyRecordFor(x).Some? {
      CandidatesSorted(c, x.b.group.id);
      StickyIsLeast(Candidates(c, x.b.group.id), StickyRecordFor(x).value.targetId);
    }
  }

  /** Over the cache a plan is a sticky hit exactly when stickiness is asked for and on, the last mapping stored
      for that tenant, project, alias and affinity is alive and of that version, and it still serves. */
  lemma StickyHitIff(c: CatalogSnapshot, q: PlanRequest, writes: seq<Write>, clock: int)
    requires AllSeparable(writes) && q.hotState == View(writes, clock) && Plan(c, q).Ok?
    requires q.affinityHash.Some? ==> Separable(AskedFor(q, BoundContext(c, q)))
    ensures var x := BoundContext(c, q);
            IsStickyHit(Plan(c, q).value) <==>
            && q.affinityHash.Some? && x.b.policy.stickyTtlSeconds.Some?
            && var last := LastStored(writes, AskedFor(q, x));
            && last.Some? && IsAlive(last.value, q, clock) && StillServes(c, x, last.value.record.sticky)
  {
    var x := BoundContext(c, q);
    HitIffTried(x, EvaluatorOf(x), Candidates(c, x.b.group.id));
    HitIffServes(c, x);
    if q.affinityHash.Some? && x.b.policy.stickyTtlSeconds.Some? { RecordIsLastStored(q, x, writes, clock); }
  }

  /** And then the route is the mapping's: its group, target and endpoint. */
  lemma StickyHitIsLastStored(c: CatalogSnapshot, q: PlanRequest, writes: seq<Write>, clock: int)
    requires AllSeparable(writes) && q.hotState == View(writes, clock) && Plan(c, q).Ok?
    requires IsStickyHit(Plan(c, q).value) && q.affinityHash.Some? && Separable(AskedFor(q, BoundContext(c, q)))
    ensures var s, last := Plan(c, q).value.outcome.selection, LastStored(writes, AskedFor(q, BoundContext(c, q)));
            && last.Some? && IsAlive(last.value, q, clock)
            && var record := last.value.record.sticky;
            record.groupId == s.groupId && record.targetId == s.targetId && record.endpointId == s.endpoint.id
  {
    StickyRefinesScan(c, q);
    RecordIsLastStored(q, BoundContext(c, q), writes, clock);
  }

  /** Over the cache no selected endpoint has a live last stored drain, nor a live last stored health record that is
      blocked or unhealthy. */
  lemma SelectedEndpointIsWell(c: CatalogSnapshot, q: PlanRequest, writes: seq<Write>, clock: int)
    requires AllSeparable(writes) && q.hotState == View(writes, clock)
    requires Plan(c, q).Ok? && Plan(c, q).value.outcome.Selected?
    requires ':' !in Plan(c, q).value.outcome.selection.endpoint.tenantId
    ensures var e := Plan(c, q).value.outcome.selection.endpoint;
            && !IsLive(writes, DrainOf(e.tenantId, e.id), q.configVersion, q.now, clock)
            && (IsLive(writes, HealthOf(e.tenantId, e.id), q.configVersion, q.now, clock) ==>
                  && LastStored(writes, HealthOf(e.tenantId, e.id)).value.record.Health?
                  && LastStored(writes, HealthOf(e.tenantId, e.id)).value.record.health.state !in {Blocked, Unhealthy})
  {
    SelectedRouteIsSound(c, q);
    var e := Plan(c, q).value.outcome.selection.endpoint;
    HealthIsLastStored(writes, e.tenantId, e.id, q.configVersion, q.now, clock);
    DrainedIffLive(writes, e.tenantId, e.id, q.configVersion, q.now, clock);
  }

  /** An endpoint whose last stored health record is live and blocked, unhealthy, or that has a live drain, makes a
      candidate ineligible; one without either is not filtered for drain or health. */
  lemma HealthFilters(x: Context, t: GroupTarget, writes: seq<Write>, clock: int)
    requires AllSeparable(writes) && x.q.hotState == View(writes, clock)
    requires t.targetId in x.targets && x.targets[t.targetId].endpointId in x.endpoints
    requires ':' !in x.endpoints[x.targets[t.targetId].endpointId].tenantId
    ensures var e := x.endpoints[x.targets[t.targetId].endpointId];
            var drained := IsLive(writes, DrainOf(e.tenantId, e.id), x.q.configVersion, x.q.now, clock);
            var known := IsLive(writes, HealthOf(e.tenantId, e.id), x.q.configVersion, x.q.now, clock);
            var last := LastStored(writes, HealthOf(e.tenantId, e.id));
            && (known ==> last.value.record.Health?)
            && (drained ==> !Evaluate(x, t).Eligible?)
            && (known && last.value.record.health.state in {Blocked, Unhealthy} ==> !Evaluate(x, t).Eligible?)
            && (Evaluate(x, t) == Filtered(EndpointDrained) ==> drained)
            && (Evaluate(x, t) == Filtered(EndpointHealthBlocked) ==>
                  known && last.value.record.health.state == Blocked)
            && (Evaluate(x, t) == Filtered(EndpointUnhealthy) ==>
                  known && last.value.record.health.state == Unhealthy)
  {
    var e := x.endpoints[x.targets[t.targetId].endpointId];
    HealthIsLastStored(writes, e.tenantId, e.id, x.q.configVersion, x.q.now, clock);
    DrainedIffLive(writes, e.tenantId, e.id, x.q.configVersion, x.q.now, clock);
    FirstFailingFilter(x, t, EndpointDrained);
    FirstFailingFilter(x, t, EndpointHealthBlocked);
    FirstFailingFilter(x, t, EndpointUnhealthy);
  }
}
