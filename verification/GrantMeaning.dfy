/** What the grants of a catalog mean for a route, said over the fields of the grants and the ids of the route, and
    that planning follows it. */
module GrantMeaning {
  import opened Base
  import opened Catalog
  import opened Grants
  import opened Evidence
  import opened Planner
  import opened RoutingLaws

  /** The ids a route runs over, from the alias down to the endpoint. */
  datatype RouteIds = RouteIds(alias: string, policy: string, group: string, target: string, endpoint: string)

  // ---------- which rule applies ----------

  /** A grant that says more than which endpoint and target it is about. */
  ghost predicate InClosureForm(g: ProviderGrant)
  {
    g != g.(scopeKind := None, scopeId := None, resourceKind := None, resourceId := None, effect := Allow,
            closureMode := SelfOnly)
  }

  /** The tenant has an active grant in closure form. */
  ghost predicate UsesClosureForm(grants: seq<ProviderGrant>, tenantId: string)
  {
    exists g :: g in grants && g.status == Active && g.tenantId == tenantId && InClosureForm(g)
  }

  lemma RuleByForm(grants: seq<ProviderGrant>, actor: Actor)
    ensures HasSpecGrants(grants, actor) <==> UsesClosureForm(grants, actor.tenantId)
  {
    forall g: ProviderGrant ensures IsSpecShape(g) <==> InClosureForm(g) {}
  }

  // ---------- the legacy rule ----------

  /** An active grant of the tenant for the endpoint, and for the target if it names one; whatever organization,
      project and principal it names are the actor's. */
  ghost predicate Covers(g: ProviderGrant, actor: Actor, ids: RouteIds)
  {
    && g.status == Active && g.tenantId == actor.tenantId
    && g.endpointId == Some(ids.endpoint) && (g.targetId.Some? ==> g.targetId.value == ids.target)
    && (g.organizationId.Some? ==> actor.organizationId == g.organizationId)
    && (g.projectId.Some? ==> actor.projectId == g.projectId)
    && (g.principalId.Some? ==> actor.principalId == g.principalId)
  }

  ghost predicate Covered(grants: seq<ProviderGrant>, actor: Actor, ids: RouteIds)
  {
    exists g :: g in grants && Covers(g, actor, ids)
  }

  lemma LegacyMeans(grants: seq<ProviderGrant>, actor: Actor, endpoint: ProviderEndpoint, target: ModelTarget,
                    ids: RouteIds)
    requires ids.endpoint == endpoint.id && ids.target == target.id
    ensures LegacyAllows(grants, actor, endpoint, target) <==> Covered(grants, actor, ids)
  {
  }

  // ---------- the closure rule ----------

  /** The place on a route that a grant names: 0 for the alias to 4 for the endpoint. */
  ghost predicate NamesPlace(g: ProviderGrant, ids: RouteIds, i: int)
  {
    || (i == 0 && g.resourceKind == Some(KindModelAlias) && g.resourceId == Some(ids.alias))
    || (i == 1 && g.resourceKind == Some(KindRoutePolicy) && g.resourceId == Some(ids.policy))
    || (i == 2 && g.resourceKind == Some(KindRoutingGroup) && g.resourceId == Some(ids.group))
    || (i == 3 && g.resourceKind == Some(KindModelTarget) && g.resourceId == Some(ids.target))
    || (i == 4 && g.resourceKind == Some(KindProviderEndpoint) && g.resourceId == Some(ids.endpoint))
  }

  function KindAt(i: int): ResourceKind
  {
    if i == 0 then KindModelAlias else if i == 1 then KindRoutePolicy else if i == 2 then KindRoutingGroup
    else if i == 3 then KindModelTarget else KindProviderEndpoint
  }

  /** The grant is for that scope: as it says itself, or else by the project or organization it names. */
  ghost predicate IsForScope(g: ProviderGrant, kind: ScopeKind, id: string)
  {
    && (g.scopeKind.Some? ==> g.scopeKind.value == kind)
    && (g.scopeKind.None? && kind == Project ==> g.projectId.Some?)
    && (g.scopeKind.None? && kind == Organization ==> g.projectId.None? && g.organizationId.Some?)
    && (g.scopeId.Some? ==> g.scopeId.value == id)
    && (g.scopeId.None? && g.projectId.Some? ==> g.projectId.value == id)
    && (g.scopeId.None? && g.projectId.None? ==> g.organizationId == Some(id))
  }

  /** An active grant of the actor's tenant for that scope, and for the actor if it names a principal. */
  ghost predicate Speaks(g: ProviderGrant, actor: Actor, kind: ScopeKind, id: string)
  {
    && g.status == Active && g.tenantId == actor.tenantId && IsForScope(g, kind, id)
    && (g.principalId.Some? ==> actor.principalId == g.principalId)
  }

  /** A deny of the scope on some place of the route. */
  ghost predicate Denied(grants: seq<ProviderGrant>, actor: Actor, kind: ScopeKind, id: string, ids: RouteIds)
  {
    exists g, i :: g in grants && Speaks(g, actor, kind, id) && g.effect == Deny
                   && g.closureMode != IncludeDescendants && NamesPlace(g, ids, i)
  }

  /** An allow of the scope for a place: on the place itself, or with descendants on it or a place before it. */
  ghost predicate AllowedAt(grants: seq<ProviderGrant>, actor: Actor, kind: ScopeKind, id: string, ids: RouteIds,
                            i: int)
  {
    exists g, j :: g in grants && Speaks(g, actor, kind, id) && g.effect == Allow && NamesPlace(g, ids, j)
                   && ((g.closureMode == SelfOnly && j == i) || (g.closureMode == IncludeDescendants && j <= i))
  }

  /** The scope has an allow on a resource of that kind. */
  ghost predicate Lists(grants: seq<ProviderGrant>, actor: Actor, kind: ScopeKind, id: string, what: ResourceKind)
  {
    exists g :: g in grants && Speaks(g, actor, kind, id) && g.effect == Allow && g.resourceKind == Some(what)
  }

  /** No deny anywhere on the route; the organization allows every place, and the project, if the actor has one,
      every place of a kind that it lists at all. */
  ghost predicate PermittedByClosure(grants: seq<ProviderGrant>, actor: Actor, ids: RouteIds)
  {
    && actor.organizationId.Some?
    && !Denied(grants, actor, Organization, actor.organizationId.value, ids)
    && (forall i :: 0 <= i < 5 ==> AllowedAt(grants, actor, Organization, actor.organizationId.value, ids, i))
    && (actor.projectId.Some? ==>
          && !Denied(grants, actor, Project, actor.projectId.value, ids)
          && forall i :: 0 <= i < 5 ==>
               Lists(grants, actor, Project, actor.projectId.value, KindAt(i)) ==>
               AllowedAt(grants, actor, Project, actor.projectId.value, ids, i))
  }

  ghost predicate Permitted(grants: seq<ProviderGrant>, actor: Actor, ids: RouteIds)
  {
    if UsesClosureForm(grants, actor.tenantId) then PermittedByClosure(grants, actor, ids)
    else Covered(grants, actor, ids)
  }

  // ---------- the decision follows it ----------

  /** A path of five nodes with those ids. */
  ghost predicate RunsOver(path: seq<Node>, ids: RouteIds)
  {
    path == [Node(KindModelAlias, ids.alias), Node(KindRoutePolicy, ids.policy), Node(KindRoutingGroup, ids.group),
             Node(KindModelTarget, ids.target), Node(KindProviderEndpoint, ids.endpoint)]
  }

  lemma SpeaksMeans(g: ProviderGrant, actor: Actor, kind: ScopeKind, id: string)
    ensures g.status == Active && MatchesScope(g, actor, kind, id) <==> Speaks(g, actor, kind, id)
  {
  }

  lemma NamesMeans(g: ProviderGrant, path: seq<Node>, ids: RouteIds, i: int)
    requires RunsOver(path, ids)
    ensures NamesPlace(g, ids, i) <==> 0 <= i < 5 && Names(g, path[i])
    ensures 0 <= i < 5 ==> path[i].kind == KindAt(i)
  {
  }

  /** What a grant reaches on the route. */
  lemma ReachMeans(g: ProviderGrant, path: seq<Node>, ids: RouteIds, i: nat)
    requires RunsOver(path, ids) && i < 5
    ensures AppliesToNode(g, path, path[i]) <==>
            || (g.closureMode == SelfOnly && NamesPlace(g, ids, i))
            || (g.closureMode == IncludeDescendants && g.effect == Allow && exists j :: j <= i && NamesPlace(g, ids, j))
            || (g.closureMode == DenyDescendants && g.effect == Deny && exists j :: j <= i && NamesPlace(g, ids, j))
  {
    AppliesByPosition(g, path, i);
    forall j: int ensures NamesPlace(g, ids, j) <==> 0 <= j < 5 && Names(g, path[j]) { NamesMeans(g, path, ids, j); }
  }

  lemma AllowMeans(grants: seq<ProviderGrant>, actor: Actor, kind: ScopeKind, id: string, path: seq<Node>,
                   ids: RouteIds, i: nat)
    requires RunsOver(path, ids) && i < 5
    ensures AllowsNode(grants, actor, kind, id, path, path[i]) <==> AllowedAt(grants, actor, kind, id, ids, i)
  {
    if AllowsNode(grants, actor, kind, id, path, path[i]) {
      var g :| g in grants && InForce(g, Allow, actor, kind, id) && AppliesToNode(g, path, path[i]);
      SpeaksMeans(g, actor, kind, id);
      ReachMeans(g, path, ids, i);
      var j :| NamesPlace(g, ids, j) && ((g.closureMode == SelfOnly && j == i)
                                         || (g.closureMode == IncludeDescendants && j <= i));
    }
    if AllowedAt(grants, actor, kind, id, ids, i) {
      var g, j :| g in grants && Speaks(g, actor, kind, id) && g.effect == Allow && NamesPlace(g, ids, j)
                  && ((g.closureMode == SelfOnly && j == i) || (g.closureMode == IncludeDescendants && j <= i));
      SpeaksMeans(g, actor, kind, id);
      ReachMeans(g, path, ids, i);
    }
  }

  lemma DenyMeans(grants: seq<ProviderGrant>, actor: Actor, kind: ScopeKind, id: string, path: seq<Node>, ids: RouteIds)
    requires RunsOver(path, ids)
    ensures (exists i :: 0 <= i < |path| && DeniesNode(grants, actor, kind, id, path, path[i]))
       <==> Denied(grants, actor, kind, id, ids)
  {
    if i :| 0 <= i < |path| && DeniesNode(grants, actor, kind, id, path, path[i]) {
      var g :| g in grants && InForce(g, Deny, actor, kind, id) && AppliesToNode(g, path, path[i]);
      SpeaksMeans(g, actor, kind, id);
      ReachMeans(g, path, ids, i);
      var j :| NamesPlace(g, ids, j) && g.closureMode != IncludeDescendants;
    }
    if Denied(grants, actor, kind, id, ids) {
      var g, i :| g in grants && Speaks(g, actor, kind, id) && g.effect == Deny
                  && g.closureMode != IncludeDescendants && NamesPlace(g, ids, i);
      SpeaksMeans(g, actor, kind, id);
      ReachMeans(g, path, ids, i);
      assert DeniesNode(grants, actor, kind, id, path, path[i]);
    }
  }

  lemma ListMeans(grants: seq<ProviderGrant>, actor: Actor, id: string, what: ResourceKind)
    ensures ProjectHasAllowForKind(grants, actor, id, what) <==> Lists(grants, actor, Project, id, what)
  {
    forall g: ProviderGrant
      ensures g.status == Active && MatchesScope(g, actor, Project, id) <==> Speaks(g, actor, Project, id)
    {
      SpeaksMeans(g, actor, Project, id);
    }
  }

  lemma OrganizationMeans(grants: seq<ProviderGrant>, actor: Actor, id: string, path: seq<Node>, ids: RouteIds)
    requires RunsOver(path, ids)
    ensures ScopeAllowsAllNodes(grants, actor, Organization, id, path) <==>
            && !Denied(grants, actor, Organization, id, ids)
            && forall i :: 0 <= i < 5 ==> AllowedAt(grants, actor, Organization, id, ids, i)
  {
    DenyMeans(grants, actor, Organization, id, path, ids);
    forall i | 0 <= i < 5
      ensures AllowsNode(grants, actor, Organization, id, path, path[i]) <==>
              AllowedAt(grants, actor, Organization, id, ids, i)
    {
      AllowMeans(grants, actor, Organization, id, path, ids, i);
    }
  }

  lemma ProjectMeans(grants: seq<ProviderGrant>, actor: Actor, id: string, path: seq<Node>, ids: RouteIds)
    requires RunsOver(path, ids)
    ensures ProjectInheritsOrNarrows(grants, actor, id, path) <==>
            && !Denied(grants, actor, Project, id, ids)
            && forall i :: 0 <= i < 5 ==>
                 Lists(grants, actor, Project, id, KindAt(i)) ==> AllowedAt(grants, actor, Project, id, ids, i)
  {
    DenyMeans(grants, actor, Project, id, path, ids);
    forall i | 0 <= i < 5
      ensures path[i].kind == KindAt(i)
      ensures AllowsNode(grants, actor, Project, id, path, path[i]) <==>
              AllowedAt(grants, actor, Project, id, ids, i)
      ensures ProjectHasAllowForKind(grants, actor, id, KindAt(i)) <==> Lists(grants, actor, Project, id, KindAt(i))
    {
      AllowMeans(grants, actor, Project, id, path, ids, i);
      ListMeans(grants, actor, id, KindAt(i));
    }
  }

  /** The grant decision is what the grants mean, for every list of grants, valid or not. */
  lemma DecisionMeans(grants: seq<ProviderGrant>, actor: Actor, path: seq<Node>, endpoint: ProviderEndpoint,
                      target: ModelTarget, ids: RouteIds)
    requires RunsOver(path, ids) && ids.endpoint == endpoint.id && ids.target == target.id
    ensures GrantAllows(grants, actor, path, endpoint, target) <==> Permitted(grants, actor, ids)
  {
    RuleByForm(grants, actor);
    LegacyMeans(grants, actor, endpoint, target, ids);
    if actor.organizationId.Some? { OrganizationMeans(grants, actor, actor.organizationId.value, path, ids); }
    if actor.projectId.Some? { ProjectMeans(grants, actor, actor.projectId.value, path, ids); }
  }

  // ---------- planning follows it ----------

  /** The ids of the route a candidate leads to. */
  ghost function IdsOf(b: Binding, target: ModelTarget, endpoint: ProviderEndpoint): RouteIds
  {
    RouteIds(b.alias.id, b.policy.id, b.group.id, target.id, endpoint.id)
  }

  /** A candidate that passes the grants is permitted, and one that only the grants refuse is not. */
  lemma CandidateMeans(x: Context, t: GroupTarget)
    requires t.targetId in x.targets && x.targets[t.targetId].endpointId in x.endpoints
    ensures var target := x.targets[t.targetId];
            var ids := IdsOf(x.b, target, x.endpoints[target.endpointId]);
            && (Evaluate(x, t).Eligible? ==> Permitted(x.grants, x.q.actor, ids))
            && (Evaluate(x, t) == Filtered(FilterReason.ProviderGrantDenied) ==> !Permitted(x.grants, x.q.actor, ids))
  {
    var target := x.targets[t.targetId];
    var endpoint := x.endpoints[target.endpointId];
    DecisionMeans(x.grants, x.q.actor, PathOf(x.b.alias, x.b.policy, x.b.group, target, endpoint), endpoint, target,
                  IdsOf(x.b, target, endpoint));
    FirstFailingFilter(x, t, FilterReason.ProviderGrantDenied);
  }

  ghost function IdsOfRoute(s: RouteSelection): RouteIds
  {
    RouteIds(s.aliasId, s.policyId, s.groupId, s.targetId, s.endpoint.id)
  }

  /** A selected route is one that the grants permit. */
  lemma SelectedIsPermitted(c: CatalogSnapshot, q: PlanRequest)
    requires Plan(c, q).Ok? && Plan(c, q).value.outcome.Selected?
    ensures Permitted(c.grants, q.actor, IdsOfRoute(Plan(c, q).value.outcome.selection))
  {
    SelectedRouteIsSound(c, q);
    var s, b := Plan(c, q).value.outcome.selection, ResolveBinding(c, q).value;
    var t, target :| ConnectedBy(c, q, b, s, t, target);
    DecisionMeans(c.grants, q.actor, PathOf(b.alias, b.policy, b.group, target, s.endpoint), s.endpoint, target,
                  IdsOfRoute(s));
  }

  /** The entry leads to a route that passes every other filter, and that the grants do not permit. */
  ghost predicate OnlyGrantsRefuse(x: Context, t: GroupTarget)
  {
    && t.targetId in x.targets && x.targets[t.targetId].endpointId in x.endpoints
    && (forall r :: r != FilterReason.ProviderGrantDenied ==> !Fails(x, t, r))
    && var target := x.targets[t.targetId];
    !Permitted(x.grants, x.q.actor, IdsOf(x.b, target, x.endpoints[target.endpointId]))
  }

  lemma RefusedCandidate(x: Context, t: GroupTarget)
    requires Evaluate(x, t) == Filtered(FilterReason.ProviderGrantDenied)
    ensures OnlyGrantsRefuse(x, t)
  {
    forall r | r != FilterReason.ProviderGrantDenied ensures !Fails(x, t, r) { FirstFailingFilter(x, t, r); }
    FirstFailingFilter(x, t, FilterReason.ProviderGrantDenied);
    CandidateMeans(x, t);
  }

  /** A plan is refused by the grants only if they do not permit the route of some entry of the group that passes
      every other filter. */
  lemma RefusedIsNotPermitted(c: CatalogSnapshot, q: PlanRequest) returns (t: GroupTarget)
    requires Plan(c, q).Ok? && Plan(c, q).value.outcome.ProviderGrantDenied?
    ensures var x := ContextOf(c, q, ResolveBinding(c, q).value);
            t in c.groupTargets && t.groupId == x.b.group.id && OnlyGrantsRefuse(x, t)
  {
    var x := ContextOf(c, q, ResolveBinding(c, q).value);
    t := DeniedFrom(x, EvaluatorOf(x), Candidates(c, x.b.group.id));
    assert EvaluatorOf(x)(t) == Evaluate(x, t);
    RefusedCandidate(x, t);
  }

  lemma DeniedFrom(x: Context, eval: Evaluator, candidates: seq<GroupTarget>) returns (t: GroupTarget)
    requires PlanBound(x, eval, candidates).outcome.ProviderGrantDenied?
    ensures t in candidates && eval(t) == Filtered(FilterReason.ProviderGrantDenied)
  {
    OutcomeKind(x, eval, candidates);
    t :| t in candidates && eval(t) == Filtered(FilterReason.ProviderGrantDenied);
  }

  /** For a tenant without grants in closure form: a selected route has an active grant of the tenant for its
      endpoint, and for its target if it names one, in which every boundary named is the actor's. */
  lemma LegacyRouteIsCovered(c: CatalogSnapshot, q: PlanRequest)
    requires Plan(c, q).Ok? && Plan(c, q).value.outcome.Selected? && !UsesClosureForm(c.grants, q.actor.tenantId)
    ensures var s := Plan(c, q).value.outcome.selection;
            exists g :: && g in c.grants && g.status == Active && g.tenantId == q.actor.tenantId
                        && g.endpointId == Some(s.endpoint.id) && g.targetId in {None, Some(s.targetId)}
                        && g.organizationId in {None, q.actor.organizationId}
                        && g.projectId in {None, q.actor.projectId} && g.principalId in {None, q.actor.principalId}
  {
    SelectedIsPermitted(c, q);
    var g :| g in c.grants && Covers(g, q.actor, IdsOfRoute(Plan(c, q).value.outcome.selection));
  }

  /** For such a tenant: a candidate that no grant covers is not eligible, and the grants do not filter one that
      some grant covers. */
  lemma LegacyCandidate(x: Context, t: GroupTarget)
    requires t.targetId in x.targets && x.targets[t.targetId].endpointId in x.endpoints
    requires !UsesClosureForm(x.grants, x.q.actor.tenantId)
    ensures var target := x.targets[t.targetId];
            var ids := IdsOf(x.b, target, x.endpoints[target.endpointId]);
            && (!Covered(x.grants, x.q.actor, ids) ==> !Evaluate(x, t).Eligible?)
            && (Covered(x.grants, x.q.actor, ids) ==> Evaluate(x, t) != Filtered(FilterReason.ProviderGrantDenied))
  {
    CandidateMeans(x, t);
  }
}
