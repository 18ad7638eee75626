/** Provider grants: the two-scope allow/deny closure over the path
    alias, policy, group, target, endpoint. */
module Grants {
  import opened Base
  import opened Catalog

  datatype Node = Node(kind: ResourceKind, id: string)

  /** A path never repeats a resource kind, so a node has one position on it. */
  ghost predicate DistinctKinds(path: seq<Node>)
  {
    forall i, j :: 0 <= i < j < |path| ==> path[i].kind != path[j].kind
  }

  function PathOf(alias: ModelAlias, policy: RoutePolicy, group: RoutingGroup,
                  target: ModelTarget, endpoint: ProviderEndpoint): (path: seq<Node>)
    ensures |path| == 5 && DistinctKinds(path)
  {
    [Node(KindModelAlias, alias.id), Node(KindRoutePolicy, policy.id), Node(KindRoutingGroup, group.id),
     Node(KindModelTarget, target.id), Node(KindProviderEndpoint, endpoint.id)]
  }

  function Position(path: seq<Node>, kind: ResourceKind, id: string): (r: Option<nat>)
    ensures r.Some? ==> r.value < |path| && path[r.value] == Node(kind, id) && Node(kind, id) !in path[..r.value]
    ensures r.None? ==> Node(kind, id) !in path
  {
    if path == [] then None
    else if path[0] == Node(kind, id) then Some(0)
    else
      match Position(path[1..], kind, id)
      case None => None
      case Some(k) => assert path[..k + 1] == [path[0]] + path[1..][..k]; Some(k + 1)
  }

  predicate OptionalMatch(expected: Option<string>, actual: Option<string>)
  {
    expected.None? || expected == actual
  }

  predicate IsSpecShape(g: ProviderGrant)
  {
    g.scopeKind.Some? || g.scopeId.Some? || g.resourceKind.Some? || g.resourceId.Some?
    || g.effect != Allow || g.closureMode != SelfOnly
  }

  function GrantScopeKind(g: ProviderGrant): Option<ScopeKind>
  {
    if g.scopeKind.Some? then g.scopeKind
    else if g.projectId.Some? then Some(Project)
    else if g.organizationId.Some? then Some(Organization)
    else None
  }

  function GrantScopeId(g: ProviderGrant): Option<string>
  {
    if g.scopeId.Some? then g.scopeId
    else if g.projectId.Some? then g.projectId
    else g.organizationId
  }

  predicate MatchesScope(g: ProviderGrant, actor: Actor, kind: ScopeKind, scopeId: string)
  {
    && g.tenantId == actor.tenantId
    && GrantScopeKind(g) == Some(kind)
    && GrantScopeId(g) == Some(scopeId)
    && OptionalMatch(g.principalId, actor.principalId)
  }

  predicate IsAncestorOrSelf(path: seq<Node>, kind: ResourceKind, id: string, node: Node)
  {
    var at, of := Position(path, kind, id), Position(path, node.kind, node.id);
    at.Some? && of.Some? && at.value <= of.value
  }

  predicate AppliesToNode(g: ProviderGrant, path: seq<Node>, node: Node)
  {
    && g.resourceKind.Some? && g.resourceId.Some?
    && match g.closureMode
       case SelfOnly => node == Node(g.resourceKind.value, g.resourceId.value)
       case IncludeDescendants =>
         g.effect == Allow && IsAncestorOrSelf(path, g.resourceKind.value, g.resourceId.value, node)
       case DenyDescendants =>
         g.effect == Deny && IsAncestorOrSelf(path, g.resourceKind.value, g.resourceId.value, node)
  }

  predicate InForce(g: ProviderGrant, effect: Effect, actor: Actor, kind: ScopeKind, scopeId: string)
  {
    g.status.Active? && g.effect == effect && MatchesScope(g, actor, kind, scopeId)
  }

  predicate AllowsNode(grants: seq<ProviderGrant>, actor: Actor, kind: ScopeKind, scopeId: string,
                       path: seq<Node>, node: Node)
  {
    exists g | g in grants :: InForce(g, Allow, actor, kind, scopeId) && AppliesToNode(g, path, node)
  }

  predicate DeniesNode(grants: seq<ProviderGrant>, actor: Actor, kind: ScopeKind, scopeId: string,
                       path: seq<Node>, node: Node)
  {
    exists g | g in grants :: InForce(g, Deny, actor, kind, scopeId) && AppliesToNode(g, path, node)
  }

  predicate ProjectHasAllowForKind(grants: seq<ProviderGrant>, actor: Actor, projectId: string, kind: ResourceKind)
  {
    exists g | g in grants :: InForce(g, Allow, actor, Project, projectId) && g.resourceKind == Some(kind)
  }

  predicate ScopeAllowsAllNodes(grants: seq<ProviderGrant>, actor: Actor, kind: ScopeKind, scopeId: string,
                                path: seq<Node>)
  {
    forall i | 0 <= i < |path| ::
      && AllowsNode(grants, actor, kind, scopeId, path, path[i])
      && !DeniesNode(grants, actor, kind, scopeId, path, path[i])
  }

  predicate ProjectInheritsOrNarrows(grants: seq<ProviderGrant>, actor: Actor, projectId: string, path: seq<Node>)
  {
    forall i | 0 <= i < |path| ::
      && !DeniesNode(grants, actor, Project, projectId, path, path[i])
      && (ProjectHasAllowForKind(grants, actor, projectId, path[i].kind)
          ==> AllowsNode(grants, actor, Project, projectId, path, path[i]))
  }

  predicate HasSpecGrants(grants: seq<ProviderGrant>, actor: Actor)
  {
    exists g | g in grants :: g.status.Active? && g.tenantId == actor.tenantId && IsSpecShape(g)
  }

  predicate LegacyAllows(grants: seq<ProviderGrant>, actor: Actor, endpoint: ProviderEndpoint, target: ModelTarget)
  {
    exists g | g in grants ::
      && g.status.Active? && g.tenantId == actor.tenantId
      && OptionalMatch(g.organizationId, actor.organizationId)
      && OptionalMatch(g.projectId, actor.projectId)
      && OptionalMatch(g.principalId, actor.principalId)
      && g.endpointId == Some(endpoint.id)
      && (g.targetId.None? || g.targetId.value == target.id)
  }

  predicate SpecAllows(grants: seq<ProviderGrant>, actor: Actor, path: seq<Node>)
  {
    && actor.organizationId.Some?
    && ScopeAllowsAllNodes(grants, actor, Organization, actor.organizationId.value, path)
    && (actor.projectId.Some? ==> ProjectInheritsOrNarrows(grants, actor, actor.projectId.value, path))
  }

  predicate GrantAllows(grants: seq<ProviderGrant>, actor: Actor, path: seq<Node>,
                        endpoint: ProviderEndpoint, target: ModelTarget)
  {
    if HasSpecGrants(grants, actor) then SpecAllows(grants, actor, path)
    else LegacyAllows(grants, actor, endpoint, target)
  }

  // ---------- closed form ----------

  /** The combinations of effect and closure mode that validation accepts. */
  ghost predicate ClosureModesValid(grants: seq<ProviderGrant>)
  {
    forall g :: g in grants ==> ValidClosureMode(g)
  }

  predicate ValidClosureMode(g: ProviderGrant)
  {
    && !(g.effect == Allow && g.closureMode == DenyDescendants)
    && !(g.effect == Deny && g.closureMode == IncludeDescendants)
  }

  predicate Names(g: ProviderGrant, node: Node)
  {
    g.resourceKind == Some(node.kind) && g.resourceId == Some(node.id)
  }

  /** What a grant reaches, said with path positions only. */
  lemma AppliesByPosition(g: ProviderGrant, path: seq<Node>, i: nat)
    requires DistinctKinds(path) && i < |path|
    ensures AppliesToNode(g, path, path[i]) <==>
            match g.closureMode
            case SelfOnly => Names(g, path[i])
            case IncludeDescendants => g.effect == Allow && exists j :: 0 <= j <= i && Names(g, path[j])
            case DenyDescendants => g.effect == Deny && exists j :: 0 <= j <= i && Names(g, path[j])
  {
    var of := Position(path, path[i].kind, path[i].id);
    assert path[i] in path;
    assert of == Some(i);
    if g.resourceKind.Some? && g.resourceId.Some? {
      var at := Position(path, g.resourceKind.value, g.resourceId.value);
      if at.Some? { assert Names(g, path[at.value]); }
      forall j | 0 <= j < |path| && Names(g, path[j]) ensures at == Some(j) {
        assert path[j] == Node(g.resourceKind.value, g.resourceId.value);
        assert path[j] in path;
      }
    }
  }

  ghost predicate DenyNames(grants: seq<ProviderGrant>, actor: Actor, kind: ScopeKind, scopeId: string, node: Node)
  {
    exists g | g in grants :: InForce(g, Deny, actor, kind, scopeId) && Names(g, node)
  }

  ghost predicate AllowNames(grants: seq<ProviderGrant>, actor: Actor, kind: ScopeKind, scopeId: string,
                             node: Node, mode: ClosureMode)
  {
    exists g | g in grants :: InForce(g, Allow, actor, kind, scopeId) && g.closureMode == mode && Names(g, node)
  }

  /** Position of the earliest node named by an in-force include-descendants allow, or the path length. */
  ghost function EarliestClosure(grants: seq<ProviderGrant>, actor: Actor, kind: ScopeKind, scopeId: string,
                                 path: seq<Node>, from: nat := 0): (e: nat)
    requires from <= |path|
    ensures from <= e <= |path|
    ensures e < |path| ==> AllowNames(grants, actor, kind, scopeId, path[e], IncludeDescendants)
    ensures forall j :: from <= j < e ==> !AllowNames(grants, actor, kind, scopeId, path[j], IncludeDescendants)
    decreases |path| - from
  {
    if from == |path| || AllowNames(grants, actor, kind, scopeId, path[from], IncludeDescendants) then from
    else EarliestClosure(grants, actor, kind, scopeId, path, from + 1)
  }

  lemma AllowsByPosition(grants: seq<ProviderGrant>, actor: Actor, kind: ScopeKind, scopeId: string,
                         path: seq<Node>, i: nat)
    requires ClosureModesValid(grants) && DistinctKinds(path) && i < |path|
    ensures AllowsNode(grants, actor, kind, scopeId, path, path[i]) <==>
            || AllowNames(grants, actor, kind, scopeId, path[i], SelfOnly)
            || EarliestClosure(grants, actor, kind, scopeId, path) <= i
  {
    var e := EarliestClosure(grants, actor, kind, scopeId, path);
    if e <= i {
      var g :| g in grants && InForce(g, Allow, actor, kind, scopeId)
               && g.closureMode == IncludeDescendants && Names(g, path[e]);
      AppliesByPosition(g, path, i);
    }
    if AllowsNode(grants, actor, kind, scopeId, path, path[i]) {
      var g :| g in grants && InForce(g, Allow, actor, kind, scopeId) && AppliesToNode(g, path, path[i]);
      AppliesByPosition(g, path, i);
      if g.closureMode == IncludeDescendants {
        var j :| 0 <= j <= i && Names(g, path[j]);
        assert AllowNames(grants, actor, kind, scopeId, path[j], IncludeDescendants);
      }
    }
    if AllowNames(grants, actor, kind, scopeId, path[i], SelfOnly) {
      var g :| g in grants && InForce(g, Allow, actor, kind, scopeId) && g.closureMode == SelfOnly && Names(g, path[i]);
      AppliesByPosition(g, path, i);
    }
  }

  /** A deny that names any node of the path hits some node of it, whatever its reach. */
  lemma DeniesSomewhere(grants: seq<ProviderGrant>, actor: Actor, kind: ScopeKind, scopeId: string, path: seq<Node>)
    requires ClosureModesValid(grants) && DistinctKinds(path)
    ensures (exists i :: 0 <= i < |path| && DeniesNode(grants, actor, kind, scopeId, path, path[i]))
        <==> (exists i :: 0 <= i < |path| && DenyNames(grants, actor, kind, scopeId, path[i]))
  {
    if i :| 0 <= i < |path| && DeniesNode(grants, actor, kind, scopeId, path, path[i]) {
      var g :| g in grants && InForce(g, Deny, actor, kind, scopeId) && AppliesToNode(g, path, path[i]);
      AppliesByPosition(g, path, i);
      var j :| 0 <= j <= i && Names(g, path[j]);
      assert DenyNames(grants, actor, kind, scopeId, path[j]);
    }
    if i :| 0 <= i < |path| && DenyNames(grants, actor, kind, scopeId, path[i]) {
      var g :| g in grants && InForce(g, Deny, actor, kind, scopeId) && Names(g, path[i]);
      AppliesByPosition(g, path, i);
      assert DeniesNode(grants, actor, kind, scopeId, path, path[i]);
    }
  }

  /** Organization scope admits a path exactly when no in-scope deny names one of its nodes and every
      node before the earliest include-descendants allow carries its own self-only allow. */
  lemma OrganizationClosedForm(grants: seq<ProviderGrant>, actor: Actor, kind: ScopeKind, scopeId: string,
                               path: seq<Node>)
    requires ClosureModesValid(grants) && DistinctKinds(path)
    ensures ScopeAllowsAllNodes(grants, actor, kind, scopeId, path) <==>
            && (forall i :: 0 <= i < |path| ==> !DenyNames(grants, actor, kind, scopeId, path[i]))
            && (forall i :: 0 <= i < EarliestClosure(grants, actor, kind, scopeId, path) ==>
                  AllowNames(grants, actor, kind, scopeId, path[i], SelfOnly))
  {
    DeniesSomewhere(grants, actor, kind, scopeId, path);
    var e := EarliestClosure(grants, actor, kind, scopeId, path);
    forall i | 0 <= i < |path|
      ensures AllowsNode(grants, actor, kind, scopeId, path, path[i]) <==>
              AllowNames(grants, actor, kind, scopeId, path[i], SelfOnly) || e <= i
    { AllowsByPosition(grants, actor, kind, scopeId, path, i); }
  }

  /** Project scope: the same deny rule, and an allow list that binds only the kinds it mentions. */
  lemma ProjectClosedForm(grants: seq<ProviderGrant>, actor: Actor, projectId: string, path: seq<Node>)
    requires ClosureModesValid(grants) && DistinctKinds(path)
    ensures ProjectInheritsOrNarrows(grants, actor, projectId, path) <==>
            && (forall i :: 0 <= i < |path| ==> !DenyNames(grants, actor, Project, projectId, path[i]))
            && (forall i :: 0 <= i < EarliestClosure(grants, actor, Project, projectId, path) ==>
                  (ProjectHasAllowForKind(grants, actor, projectId, path[i].kind) ==>
                     AllowNames(grants, actor, Project, projectId, path[i], SelfOnly)))
  {
    DeniesSomewhere(grants, actor, Project, projectId, path);
    var e := EarliestClosure(grants, actor, Project, projectId, path);
    forall i | 0 <= i < |path|
      ensures AllowsNode(grants, actor, Project, projectId, path, path[i]) <==>
              AllowNames(grants, actor, Project, projectId, path[i], SelfOnly) || e <= i
    { AllowsByPosition(grants, actor, Project, projectId, path, i); }
  }

  /** No in-scope deny names a node of the path, and every node before the earliest include-descendants allow
      is named by a self-only allow; for a project only if the project has allows for that kind at all. */
  ghost predicate Admits(grants: seq<ProviderGrant>, actor: Actor, kind: ScopeKind, scopeId: string, path: seq<Node>)
  {
    && (forall i :: 0 <= i < |path| ==> !DenyNames(grants, actor, kind, scopeId, path[i]))
    && (forall i :: 0 <= i < EarliestClosure(grants, actor, kind, scopeId, path) ==>
          || AllowNames(grants, actor, kind, scopeId, path[i], SelfOnly)
          || (kind == Project && !ProjectHasAllowForKind(grants, actor, scopeId, path[i].kind)))
  }

  /** The closure rule as a whole, for grants that passed validation. */
  lemma SpecClosedForm(grants: seq<ProviderGrant>, actor: Actor, path: seq<Node>)
    requires ClosureModesValid(grants) && DistinctKinds(path)
    ensures SpecAllows(grants, actor, path) <==>
            && actor.organizationId.Some?
            && Admits(grants, actor, Organization, actor.organizationId.value, path)
            && (actor.projectId.Some? ==> Admits(grants, actor, Project, actor.projectId.value, path))
  {
    if actor.organizationId.Some? {
      OrganizationClosedForm(grants, actor, Organization, actor.organizationId.value, path);
    }
    if actor.projectId.Some? { ProjectClosedForm(grants, actor, actor.projectId.value, path); }
  }

  // ---------- what editing the grant list can do ----------

  /** The same deny, possibly with its reach switched between self_only and deny_descendants. */
  ghost predicate SameUpToDenyMode(g: ProviderGrant, h: ProviderGrant)
  {
    || g == h
    || (g.effect == Deny && h == g.(closureMode := h.closureMode)
        && g.closureMode != IncludeDescendants && h.closureMode != IncludeDescendants)
  }

  ghost predicate DenyModesSwitched(grants: seq<ProviderGrant>, grants': seq<ProviderGrant>)
  {
    |grants| == |grants'| && forall k :: 0 <= k < |grants| ==> SameUpToDenyMode(grants[k], grants'[k])
  }

  lemma SwitchedAllows(grants: seq<ProviderGrant>, grants': seq<ProviderGrant>, actor: Actor, kind: ScopeKind,
                       scopeId: string, path: seq<Node>, i: nat)
    requires DenyModesSwitched(grants, grants') && i < |path|
    ensures AllowsNode(grants, actor, kind, scopeId, path, path[i])
        <==> AllowsNode(grants', actor, kind, scopeId, path, path[i])
    ensures ProjectHasAllowForKind(grants, actor, scopeId, path[i].kind)
        <==> ProjectHasAllowForKind(grants', actor, scopeId, path[i].kind)
  {
    forall g: ProviderGrant | g.effect == Allow ensures g in grants <==> g in grants' {
      if k :| 0 <= k < |grants| && grants[k] == g { assert grants'[k] == g; }
      if k :| 0 <= k < |grants| && grants'[k] == g { assert grants[k] == g; }
    }
  }

  lemma SwitchedStillHits(g: ProviderGrant, h: ProviderGrant, path: seq<Node>, i: nat) returns (j: nat)
    requires g.effect == Deny && SameUpToDenyMode(g, h) && DistinctKinds(path)
    requires i < |path| && AppliesToNode(g, path, path[i])
    ensures j < |path| && AppliesToNode(h, path, path[j])
  {
    AppliesByPosition(g, path, i);
    j :| 0 <= j <= i && Names(g, path[j]);
    assert Names(g, path[j]);
    assert g.resourceKind == Some(path[j].kind) && h.resourceKind == g.resourceKind;
    assert Names(h, path[j]);
    AppliesByPosition(h, path, j);
  }

  lemma SwitchedDenies(grants: seq<ProviderGrant>, grants': seq<ProviderGrant>, actor: Actor, kind: ScopeKind,
                       scopeId: string, path: seq<Node>, i: nat) returns (j: nat)
    requires DenyModesSwitched(grants, grants') && DistinctKinds(path)
    requires i < |path| && DeniesNode(grants, actor, kind, scopeId, path, path[i])
    ensures j < |path| && DeniesNode(grants', actor, kind, scopeId, path, path[j])
  {
    var g :| g in grants && InForce(g, Deny, actor, kind, scopeId) && AppliesToNode(g, path, path[i]);
    var k :| 0 <= k < |grants| && grants[k] == g;
    j := SwitchedStillHits(g, grants'[k], path, i);
    assert grants'[k] in grants';
  }

  /** Switching denies between self_only and deny_descendants never changes a grant decision. */
  lemma DenyModeIrrelevant(grants: seq<ProviderGrant>, grants': seq<ProviderGrant>, actor: Actor, path: seq<Node>,
                           endpoint: ProviderEndpoint, target: ModelTarget)
    requires DenyModesSwitched(grants, grants') && DistinctKinds(path)
    ensures GrantAllows(grants, actor, path, endpoint, target) <==> GrantAllows(grants', actor, path, endpoint, target)
  {
    SwitchedImplies(grants, grants', actor, path, endpoint, target);
    SwitchedImplies(grants', grants, actor, path, endpoint, target);
  }

  lemma SwitchedImplies(grants: seq<ProviderGrant>, grants': seq<ProviderGrant>, actor: Actor, path: seq<Node>,
                        endpoint: ProviderEndpoint, target: ModelTarget)
    requires DenyModesSwitched(grants, grants') && DistinctKinds(path)
    ensures GrantAllows(grants, actor, path, endpoint, target) ==> GrantAllows(grants', actor, path, endpoint, target)
  {
    SwitchedHasSpec(grants, grants', actor);
    SwitchedHasSpec(grants', grants, actor);
    if !GrantAllows(grants, actor, path, endpoint, target) {
    } else if HasSpecGrants(grants, actor) {
      SwitchedScope(grants, grants', actor, Organization, actor.organizationId.value, path);
      if actor.projectId.Some? {
        SwitchedScope(grants, grants', actor, Project, actor.projectId.value, path);
      }
    } else {
      var g :| g in grants && g.status.Active? && g.tenantId == actor.tenantId
               && OptionalMatch(g.organizationId, actor.organizationId)
               && OptionalMatch(g.projectId, actor.projectId)
               && OptionalMatch(g.principalId, actor.principalId)
               && g.endpointId == Some(endpoint.id)
               && (g.targetId.None? || g.targetId.value == target.id);
      var k :| 0 <= k < |grants| && grants[k] == g;
      assert grants'[k] in grants';
    }
  }

  lemma SwitchedHasSpec(grants: seq<ProviderGrant>, grants': seq<ProviderGrant>, actor: Actor)
    requires DenyModesSwitched(grants, grants')
    ensures HasSpecGrants(grants, actor) ==> HasSpecGrants(grants', actor)
  {
    if g :| g in grants && g.status.Active? && g.tenantId == actor.tenantId && IsSpecShape(g) {
      var k :| 0 <= k < |grants| && grants[k] == g;
      assert grants'[k] in grants';
    }
  }

  lemma SwitchedScope(grants: seq<ProviderGrant>, grants': seq<ProviderGrant>, actor: Actor, kind: ScopeKind,
                      scopeId: string, path: seq<Node>)
    requires DenyModesSwitched(grants, grants') && DistinctKinds(path)
    ensures forall i :: 0 <= i < |path| ==>
              && AllowsNode(grants, actor, kind, scopeId, path, path[i])
                 == AllowsNode(grants', actor, kind, scopeId, path, path[i])
              && ProjectHasAllowForKind(grants, actor, scopeId, path[i].kind)
                 == ProjectHasAllowForKind(grants', actor, scopeId, path[i].kind)
    ensures (forall i :: 0 <= i < |path| ==> !DeniesNode(grants, actor, kind, scopeId, path, path[i]))
        ==> (forall i :: 0 <= i < |path| ==> !DeniesNode(grants', actor, kind, scopeId, path, path[i]))
  {
    forall i | 0 <= i < |path|
      ensures AllowsNode(grants, actor, kind, scopeId, path, path[i])
              == AllowsNode(grants', actor, kind, scopeId, path, path[i])
      ensures ProjectHasAllowForKind(grants, actor, scopeId, path[i].kind)
              == ProjectHasAllowForKind(grants', actor, scopeId, path[i].kind)
    { SwitchedAllows(grants, grants', actor, kind, scopeId, path, i); }
    if i :| 0 <= i < |path| && DeniesNode(grants', actor, kind, scopeId, path, path[i]) {
      var j := SwitchedDenies(grants', grants, actor, kind, scopeId, path, i);
    }
  }

  /** `grants'` holds exactly the grants of `grants` and one more, wherever it was put. */
  ghost predicate Added(grants: seq<ProviderGrant>, grants': seq<ProviderGrant>, extra: ProviderGrant)
  {
    forall g :: g in grants' <==> g in grants || g == extra
  }

  /** Adding a deny never lets a path through that was refused before, also when that deny is what
      moves the tenant from the legacy rule to the closure rule. */
  lemma DenyOnlyNarrows(grants: seq<ProviderGrant>, grants': seq<ProviderGrant>, deny: ProviderGrant,
                        actor: Actor, path: seq<Node>, endpoint: ProviderEndpoint, target: ModelTarget)
    requires Added(grants, grants', deny) && deny.effect == Deny && path != []
    requires GrantAllows(grants', actor, path, endpoint, target)
    ensures GrantAllows(grants, actor, path, endpoint, target)
  {
    if HasSpecGrants(grants', actor) {
      var g :| g in grants' && InForce(g, Allow, actor, Organization, actor.organizationId.value)
               && AppliesToNode(g, path, path[0]);
      assert g in grants && IsSpecShape(g);
      assert HasSpecGrants(grants, actor);
    }
  }

  /** The way one more allow can take a path away: it opens an allow list of the actor's project for the
      kind of a node that no project allow, old or new, reaches. */
  ghost predicate ShutsOut(grants': seq<ProviderGrant>, allow: ProviderGrant, actor: Actor, path: seq<Node>)
  {
    && actor.projectId.Some?
    && InForce(allow, Allow, actor, Project, actor.projectId.value)
    && exists i :: 0 <= i < |path| && allow.resourceKind == Some(path[i].kind)
                   && !AllowsNode(grants', actor, Project, actor.projectId.value, path, path[i])
  }

  /** Under the closure rule, adding an allow keeps an admitted path admitted exactly when it does not
      shut the path out; an organization-scoped allow never does. */
  lemma AllowKeepsUnlessShutOut(grants: seq<ProviderGrant>, grants': seq<ProviderGrant>, allow: ProviderGrant,
                                actor: Actor, path: seq<Node>, endpoint: ProviderEndpoint, target: ModelTarget)
    requires Added(grants, grants', allow) && allow.effect == Allow
    requires HasSpecGrants(grants, actor) && GrantAllows(grants, actor, path, endpoint, target)
    ensures GrantAllows(grants', actor, path, endpoint, target) <==> !ShutsOut(grants', allow, actor, path)
    ensures GrantScopeKind(allow) == Some(Organization) ==> GrantAllows(grants', actor, path, endpoint, target)
  {
    assert HasSpecGrants(grants', actor);
    assert ScopeAllowsAllNodes(grants', actor, Organization, actor.organizationId.value, path);
    if ShutsOut(grants', allow, actor, path) {
      var i :| 0 <= i < |path| && allow.resourceKind == Some(path[i].kind)
               && !AllowsNode(grants', actor, Project, actor.projectId.value, path, path[i]);
      assert allow in grants';
      assert ProjectHasAllowForKind(grants', actor, actor.projectId.value, path[i].kind);
    } else if actor.projectId.Some? {
      var prj := actor.projectId.value;
      forall i | 0 <= i < |path| && ProjectHasAllowForKind(grants', actor, prj, path[i].kind)
        ensures AllowsNode(grants', actor, Project, prj, path, path[i])
      {
        if ProjectHasAllowForKind(grants, actor, prj, path[i].kind) {
          assert AllowsNode(grants, actor, Project, prj, path, path[i]);
        }
      }
    }
  }

  /** The first grant in closure form moves a tenant from the legacy rule to the closure rule, where the legacy
      grants no longer count: a path is admitted from then on exactly when that one grant is an
      include-descendants allow of the actor's organization on the alias. */
  lemma FirstClosureGrant(grants: seq<ProviderGrant>, grants': seq<ProviderGrant>, first: ProviderGrant,
                          actor: Actor, path: seq<Node>, endpoint: ProviderEndpoint, target: ModelTarget)
    requires Added(grants, grants', first) && |path| > 1 && DistinctKinds(path)
    requires !HasSpecGrants(grants, actor) && HasSpecGrants(grants', actor)
    ensures GrantAllows(grants', actor, path, endpoint, target) <==>
            && actor.organizationId.Some?
            && InForce(first, Allow, actor, Organization, actor.organizationId.value)
            && first.closureMode == IncludeDescendants && Names(first, path[0])
  {
    forall g, kind, scopeId, i | g in grants' && g != first && 0 <= i < |path| && g.status.Active?
                                 && MatchesScope(g, actor, kind, scopeId)
      ensures !AppliesToNode(g, path, path[i]) && g.resourceKind.None? && g.effect == Allow
    {
      assert !IsSpecShape(g);
    }
    AppliesByPosition(first, path, 0);
    AppliesByPosition(first, path, 1);
    forall i | 0 <= i < |path| && first.effect == Allow && first.closureMode == IncludeDescendants
               && Names(first, path[0])
      ensures AppliesToNode(first, path, path[i])
    {
      AppliesByPosition(first, path, i);
    }
  }

  /** A legacy grant added to legacy grants only widens. */
  lemma LegacyGrantOnlyWidens(grants: seq<ProviderGrant>, grants': seq<ProviderGrant>, extra: ProviderGrant,
                              actor: Actor, path: seq<Node>, endpoint: ProviderEndpoint, target: ModelTarget)
    requires Added(grants, grants', extra) && !HasSpecGrants(grants', actor)
    ensures GrantAllows(grants, actor, path, endpoint, target) ==> GrantAllows(grants', actor, path, endpoint, target)
  {
    assert !HasSpecGrants(grants, actor);
  }
}
