/** Route planning: alias, policy and group resolution, candidate evaluation, the sticky attempt and the scan. */
module Planner {
  import opened Base
  import opened Catalog
  import opened Grants
  import opened Evidence
  import opened HotState
  import opened Validation

  datatype PlanRequest = PlanRequest(
    actor: Actor, protocolFamily: ProtocolFamily, aliasName: string, streaming: bool,
    hotState: RouteHotState, configVersion: Option<int>, now: int, affinityHash: Option<string>)

  datatype Binding = Binding(alias: ModelAlias, policy: RoutePolicy, group: RoutingGroup)

  datatype Context = Context(
    q: PlanRequest, b: Binding, grants: seq<ProviderGrant>,
    endpoints: map<string, ProviderEndpoint>, credentials: map<string, UpstreamCredential>,
    targets: map<string, ModelTarget>)

  datatype Evaluation = Eligible(target: ModelTarget, endpoint: ProviderEndpoint) | Filtered(reason: FilterReason)

  datatype MissReason =
    | RoutingGroupChanged | ModelTargetMissing | ProviderEndpointChanged | CandidateFiltered(reason: FilterReason)

  datatype StickyAttempt =
    | Hit(target: ModelTarget, endpoint: ProviderEndpoint)
    | Miss(why: MissReason)
    | Unavailable

  datatype RouteSelection = RouteSelection(
    aliasId: string, aliasName: string, policyId: string, groupId: string, targetId: string,
    upstreamModelId: string, pricingSkuId: Option<string>, endpoint: ProviderEndpoint,
    credentialId: Option<string>, filteredSummary: seq<FilterSummary>,
    stickyHit: bool, stickyMissReason: Option<MissReason>, stickyTtlSeconds: Option<int>)

  datatype Outcome = Selected(selection: RouteSelection) | ProviderGrantDenied | NoRoute

  datatype RoutePlan = RoutePlan(outcome: Outcome, filteredSummary: seq<FilterSummary>)

  // ---------- resolution ----------

  function AliasScopeScore(alias: ModelAlias, actor: Actor): Option<int>
  {
    if alias.projectId == actor.projectId && alias.organizationId == actor.organizationId && alias.projectId.Some?
    then Some(3)
    else if alias.projectId.None? && alias.organizationId == actor.organizationId && alias.organizationId.Some?
    then Some(2)
    else if alias.projectId.None? && alias.organizationId.None? then Some(1)
    else None
  }

  predicate Reaches(alias: ModelAlias, actor: Actor, name: string)
  {
    alias.tenantId == actor.tenantId && alias.name == name && AliasScopeScore(alias, actor).Some?
  }

  function ScopedAliases(aliases: seq<ModelAlias>, actor: Actor, name: string): (r: seq<(int, ModelAlias)>)
    ensures forall x :: x in r <==>
            x.1 in aliases && Reaches(x.1, actor, name) && AliasScopeScore(x.1, actor) == Some(x.0)
  {
    if aliases == [] then []
    else if Reaches(aliases[0], actor, name) then
      [(AliasScopeScore(aliases[0], actor).value, aliases[0])] + ScopedAliases(aliases[1..], actor, name)
    else ScopedAliases(aliases[1..], actor, name)
  }

  predicate ScoreDescending(left: (int, ModelAlias), right: (int, ModelAlias)) { left.0 >= right.0 }

  /** The most specific alias of that name the actor can see; two equally specific ones are ambiguous. */
  function ResolveAlias(aliases: seq<ModelAlias>, actor: Actor, name: string): Result<ModelAlias, GatewayError>
  {
    var scoped := SortBy(ScopedAliases(aliases, actor, name), ScoreDescending);
    if scoped == [] then Err(NotFound(name))
    else if exists x | x in scoped[1..] :: x.0 == scoped[0].0 then Err(BadRequest(AmbiguousAlias))
    else Ok(scoped[0].1)
  }

  function FindById<T(!new)>(s: seq<T>, key: T -> string, id: string): (r: Option<T>)
    ensures r.Some? ==> r.value in s && key(r.value) == id
    ensures r.None? ==> forall x :: x in s ==> key(x) != id
  {
    if s == [] then None else if key(s[0]) == id then Some(s[0]) else FindById(s[1..], key, id)
  }

  function ResolveBinding(c: CatalogSnapshot, q: PlanRequest): Result<Binding, GatewayError>
  {
    match ResolveAlias(c.aliases, q.actor, q.aliasName)
    case Err(e) => Err(e)
    case Ok(alias) =>
      if alias.protocolFamily != q.protocolFamily then Err(BadRequest(AliasProtocolMismatch))
      else if !alias.status.Active? then Err(NotFound(q.aliasName))
      else
        match FindById(c.policies, PolicyId, alias.policyId)
        case None => Err(NotReady)
        case Some(policy) =>
          if !policy.status.Active? then Err(NotReady)
          else
            match FindById(c.groups, GroupId, policy.groupId)
            case None => Err(NotReady)
            case Some(group) => if !group.status.Active? then Err(NotReady) else Ok(Binding(alias, policy, group))
  }

  // ---------- candidates ----------

  predicate CandidateLeq(left: GroupTarget, right: GroupTarget)
  {
    left.priority < right.priority
    || (left.priority == right.priority
        && (left.weight > right.weight || (left.weight == right.weight && Leq(left.targetId, right.targetId))))
  }

  function Candidates(c: CatalogSnapshot, groupId: string): (r: seq<GroupTarget>)
    ensures forall t :: t in r <==> t in c.groupTargets && t.groupId == groupId
  {
    SortBy(TargetsOf(c.groupTargets, groupId), CandidateLeq)
  }

  /** The filters, in the order the planner applies them. */
  function Evaluate(x: Context, candidate: GroupTarget): Evaluation
  {
    if !candidate.status.Active? then Filtered(GroupTargetInactive)
    else if candidate.targetId !in x.targets then Filtered(TargetMissing)
    else
      var target := x.targets[candidate.targetId];
      if !target.status.Active? then Filtered(TargetInactive)
      else if target.protocolFamily != x.q.protocolFamily then Filtered(ProtocolMismatch)
      else if x.q.streaming && !target.supportsStreaming then Filtered(StreamingUnsupported)
      else if target.endpointId !in x.endpoints then Filtered(EndpointMissing)
      else EvaluateEndpoint(x, target, x.endpoints[target.endpointId])
  }

  function EvaluateEndpoint(x: Context, target: ModelTarget, endpoint: ProviderEndpoint): Evaluation
  {
    if !endpoint.status.Active? then Filtered(EndpointInactive)
    else if x.q.protocolFamily !in endpoint.protocolFamilies then Filtered(EndpointProtocolMismatch)
    else if x.q.hotState.isDrained(endpoint.tenantId, endpoint.id, x.q.configVersion, x.q.now)
    then Filtered(EndpointDrained)
    else
      match x.q.hotState.health(endpoint.tenantId, endpoint.id, x.q.configVersion, x.q.now)
      case Blocked => Filtered(EndpointHealthBlocked)
      case Unhealthy => Filtered(EndpointUnhealthy)
      case _ =>
        if target.credentialId.Some? && target.credentialId.value !in x.credentials then Filtered(CredentialMissing)
        else if target.credentialId.Some? && !x.credentials[target.credentialId.value].status.IsUsable() then
          Filtered(CredentialUnusable)
        else if !GrantAllows(x.grants, x.q.actor, PathOf(x.b.alias, x.b.policy, x.b.group, target, endpoint),
                             endpoint, target) then Filtered(FilterReason.ProviderGrantDenied)
        else Eligible(target, endpoint)
  }

  // ---------- the plan, as a specification ----------

  ghost function ContextOf(c: CatalogSnapshot, q: PlanRequest, b: Binding): Context
  {
    Context(q, b, c.grants, ById(c.endpoints, EndpointId), ById(c.credentials, CredentialId), ById(c.targets, TargetId))
  }

  /** Planning looks at candidates only through their evaluation. */
  type Evaluator = GroupTarget -> Evaluation

  function EvaluatorOf(x: Context): Evaluator
  {
    (t: GroupTarget) => Evaluate(x, t)
  }

  /** Position of the first eligible candidate, or the number of candidates. */
  ghost function FirstEligible(eval: Evaluator, candidates: seq<GroupTarget>): (k: nat)
    ensures k <= |candidates|
    ensures k < |candidates| ==> eval(candidates[k]).Eligible?
    ensures forall j :: 0 <= j < k ==> eval(candidates[j]).Filtered?
  {
    if candidates == [] || eval(candidates[0]).Eligible? then 0 else 1 + FirstEligible(eval, candidates[1..])
  }

  ghost function Reasons(eval: Evaluator, candidates: seq<GroupTarget>): (r: seq<FilterReason>)
    requires forall j :: 0 <= j < |candidates| ==> eval(candidates[j]).Filtered?
    ensures |r| == |candidates| && forall j :: 0 <= j < |r| ==> eval(candidates[j]) == Filtered(r[j])
  {
    seq(|candidates|, j requires 0 <= j < |candidates| => eval(candidates[j]).reason)
  }

  function StickyRecordFor(x: Context): Option<StickyRecord>
  {
    if x.q.affinityHash.None? || x.b.policy.stickyTtlSeconds.None? then None
    else x.q.hotState.sticky(x.q.actor.tenantId, x.q.actor.projectId, x.b.alias.id, x.q.affinityHash.value,
                             x.q.configVersion, x.q.now)
  }

  /** The remembered target, looked up among the candidates of the current group. */
  function StickyCandidate(candidates: seq<GroupTarget>, targetId: string): (r: Option<GroupTarget>)
    ensures r.Some? ==> r.value in candidates && r.value.targetId == targetId
    ensures r.None? ==> forall t :: t in candidates ==> t.targetId != targetId
  {
    FindById(candidates, (t: GroupTarget) => t.targetId, targetId)
  }

  ghost function TrySticky(x: Context, eval: Evaluator, candidates: seq<GroupTarget>): StickyAttempt
  {
    match StickyRecordFor(x)
    case None => Unavailable
    case Some(sticky) =>
      if sticky.groupId != x.b.group.id then Miss(RoutingGroupChanged)
      else
        match StickyCandidate(candidates, sticky.targetId)
        case None => Miss(ModelTargetMissing)
        case Some(candidate) =>
          match eval(candidate)
          case Filtered(reason) => Miss(CandidateFiltered(reason))
          case Eligible(target, endpoint) =>
            if endpoint.id == sticky.endpointId then Hit(target, endpoint) else Miss(ProviderEndpointChanged)
  }

  /** A filtered sticky candidate leaves one entry of evidence before the scan starts. */
  ghost function StickyReasons(attempt: StickyAttempt): seq<FilterReason>
  {
    if attempt.Miss? && attempt.why.CandidateFiltered? then [attempt.why.reason] else []
  }

  function SelectionOf(x: Context, target: ModelTarget, endpoint: ProviderEndpoint, summary: seq<FilterSummary>,
                       stickyHit: bool, why: Option<MissReason>): RouteSelection
  {
    RouteSelection(x.b.alias.id, x.b.alias.name, x.b.policy.id, x.b.group.id, target.id, target.upstreamModelId,
                   target.pricingSkuId, endpoint, target.credentialId, summary, stickyHit, why,
                   x.b.policy.stickyTtlSeconds)
  }

  ghost function MissOf(attempt: StickyAttempt): Option<MissReason>
  {
    if attempt.Miss? then Some(attempt.why) else None
  }

  ghost function PlanReasons(x: Context, eval: Evaluator, candidates: seq<GroupTarget>): seq<FilterReason>
  {
    StickyReasons(TrySticky(x, eval, candidates)) + Reasons(eval, candidates[..FirstEligible(eval, candidates)])
  }

  ghost function PlanBound(x: Context, eval: Evaluator, candidates: seq<GroupTarget>): RoutePlan
  {
    var attempt, k := TrySticky(x, eval, candidates), FirstEligible(eval, candidates);
    if attempt.Hit? then RoutePlan(Selected(SelectionOf(x, attempt.target, attempt.endpoint, [], true, None)), [])
    else
      var reasons := PlanReasons(x, eval, candidates);
      var summary := Tally(reasons);
      var outcome :=
        if k < |candidates| then
          var e := eval(candidates[k]);
          Selected(SelectionOf(x, e.target, e.endpoint, summary, false, MissOf(attempt)))
        else if FilterReason.ProviderGrantDenied in reasons then Outcome.ProviderGrantDenied
        else NoRoute;
      RoutePlan(outcome, summary)
  }

  ghost predicate Indexable(c: CatalogSnapshot)
  {
    UniqueBy(c.endpoints, EndpointId) && UniqueBy(c.credentials, CredentialId) && UniqueBy(c.targets, TargetId)
  }

  ghost function Plan(c: CatalogSnapshot, q: PlanRequest): Result<RoutePlan, GatewayError>
  {
    match ResolveBinding(c, q)
    case Err(e) => Err(e)
    case Ok(b) =>
      if !Indexable(c) then Err(BadRequest(InvalidCatalog))
      else Ok(PlanBound(ContextOf(c, q, b), EvaluatorOf(ContextOf(c, q, b)), Candidates(c, b.group.id)))
  }

  // ---------- the plan, as the planner runs it ----------

  method TryStickyRouteSelection(x: Context, eval: Evaluator, candidates: seq<GroupTarget>, evidence: FilterEvidence)
    returns (attempt: StickyAttempt)
    requires evidence.Records([])
    modifies evidence
    ensures attempt == TrySticky(x, eval, candidates)
    ensures evidence.Records(StickyReasons(attempt))
  {
    var sticky := StickyRecordFor(x);
    if sticky.None? { return Unavailable; }
    if sticky.value.groupId != x.b.group.id { return Miss(RoutingGroupChanged); }
    var candidate := StickyCandidate(candidates, sticky.value.targetId);
    if candidate.None? { return Miss(ModelTargetMissing); }
    match eval(candidate.value)
    case Eligible(target, endpoint) =>
      attempt := if endpoint.id == sticky.value.endpointId then Hit(target, endpoint)
                 else Miss(ProviderEndpointChanged);
    case Filtered(reason) =>
      evidence.Note(reason, []);
      assert [] + [reason] == [reason];
      attempt := Miss(CandidateFiltered(reason));
  }

  method FirstEligibleRouteSelection(x: Context, eval: Evaluator, candidates: seq<GroupTarget>,
                                     evidence: FilterEvidence, why: Option<MissReason>, ghost noted: seq<FilterReason>)
    returns (selection: Option<RouteSelection>)
    requires evidence.Records(noted)
    modifies evidence
    ensures var k := FirstEligible(eval, candidates);
            && evidence.Records(noted + Reasons(eval, candidates[..k]))
            && selection == if k == |candidates| then None
                            else Some(SelectionOf(x, eval(candidates[k]).target, eval(candidates[k]).endpoint,
                                                  evidence.summary, false, why))
  {
    var i := 0;
    ghost var reasons := noted;
    while i < |candidates|
      invariant 0 <= i <= FirstEligible(eval, candidates)
      invariant reasons == noted + Reasons(eval, candidates[..i])
      invariant evidence.Records(reasons)
    {
      match eval(candidates[i])
      case Eligible(target, endpoint) =>
        return Some(SelectionOf(x, target, endpoint, evidence.summary, false, why));
      case Filtered(reason) =>
        evidence.Note(reason, reasons);
        assert Reasons(eval, candidates[..i + 1]) == Reasons(eval, candidates[..i]) + [reason];
        reasons := reasons + [reason];
        i := i + 1;
    }
    return None;
  }

  /** The sticky attempt, then the scan. */
  method PlanBoundRoute(x: Context, candidates: seq<GroupTarget>) returns (plan: RoutePlan)
    ensures plan == PlanBound(x, EvaluatorOf(x), candidates)
  {
    var evidence := new FilterEvidence();
    var attempt := TryStickyRouteSelection(x, EvaluatorOf(x), candidates, evidence);
    if attempt.Hit? {
      var hit := SelectionOf(x, attempt.target, attempt.endpoint, evidence.summary, true, None);
      return RoutePlan(Selected(hit), evidence.summary);
    }
    var why := if attempt.Miss? then Some(attempt.why) else None;
    var selection := FirstEligibleRouteSelection(x, EvaluatorOf(x), candidates, evidence, why, StickyReasons(attempt));
    if selection.Some? { return RoutePlan(Selected(selection.value), evidence.summary); }
    if evidence.providerGrantDenied { return RoutePlan(Outcome.ProviderGrantDenied, evidence.summary); }
    return RoutePlan(NoRoute, evidence.summary);
  }

  method PlanRuntimeRoute(c: CatalogSnapshot, q: PlanRequest) returns (r: Result<RoutePlan, GatewayError>)
    ensures r == Plan(c, q)
  {
    var binding := ResolveBinding(c, q);
    if binding.Err? { return Err(binding.error); }
    var endpoints := IndexBy(c.endpoints, EndpointId);
    if endpoints.Err? { return Err(endpoints.error); }
    var credentials := IndexBy(c.credentials, CredentialId);
    if credentials.Err? { return Err(credentials.error); }
    var targets := IndexBy(c.targets, TargetId);
    if targets.Err? { return Err(targets.error); }
    var x := Context(q, binding.value, c.grants, endpoints.value, credentials.value, targets.value);
    var plan := PlanBoundRoute(x, Candidates(c, binding.value.group.id));
    return Ok(plan);
  }
}
