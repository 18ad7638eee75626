/** Catalog validation: the indexes it builds and the relation between the lists it establishes. */
module Validation {
  import opened Base
  import opened Catalog
  import opened Grants

  const STICKY_TTL_MIN := 60
  const STICKY_TTL_MAX := 86_400

  // ---------- what a valid catalog is, said over the lists ----------

  predicate ValidEndpoint(e: ProviderEndpoint, urlOk: string -> bool)
  {
    e.protocolFamilies != [] && urlOk(e.upstreamBaseUrl)
  }

  predicate EndsWith(s: string, suffix: string)
  {
    |suffix| <= |s| && s[|s| - |suffix|..] == suffix
  }

  predicate ValidCredentialKind(e: ProviderEndpoint, k: UpstreamCredential)
  {
    && k.secretRefId != ""
    && (k.credentialKind == "codex_oauth" ==> e.providerKind == "codex")
    && (EndsWith(k.credentialKind, "oauth") ==> k.credentialKind == "codex_oauth")
  }

  ghost predicate ValidCredential(c: CatalogSnapshot, k: UpstreamCredential)
  {
    exists e | e in c.endpoints :: e.id == k.endpointId && ValidCredentialKind(e, k)
  }

  ghost predicate ValidTarget(c: CatalogSnapshot, t: ModelTarget)
  {
    && (exists e | e in c.endpoints :: e.id == t.endpointId && t.protocolFamily in e.protocolFamilies)
    && (t.credentialId.Some? ==>
          exists k | k in c.credentials ::
            k.id == t.credentialId.value && k.endpointId == t.endpointId && k.status.IsUsable())
  }

  ghost predicate ValidPolicy(c: CatalogSnapshot, p: RoutePolicy)
  {
    && (p.stickyTtlSeconds.Some? ==> STICKY_TTL_MIN <= p.stickyTtlSeconds.value <= STICKY_TTL_MAX)
    && (exists g | g in c.groups :: g.id == p.groupId)
    && (exists t | t in c.groupTargets :: t.groupId == p.groupId)
  }

  ghost predicate ValidAlias(c: CatalogSnapshot, a: ModelAlias)
  {
    exists p | p in c.policies :: p.id == a.policyId && p.aliasId == a.id && GroupServes(c, p.groupId, a.protocolFamily)
  }

  ghost predicate GroupServes(c: CatalogSnapshot, groupId: string, family: ProtocolFamily)
  {
    forall gt :: gt in c.groupTargets && gt.groupId == groupId ==>
      exists t | t in c.targets :: t.id == gt.targetId && t.protocolFamily == family
  }

  ghost predicate ValidLegacyGrant(c: CatalogSnapshot, g: ProviderGrant)
  {
    && g.endpointId.Some?
    && (exists e | e in c.endpoints :: e.id == g.endpointId.value)
    && (g.targetId.Some? ==>
          exists t | t in c.targets :: t.id == g.targetId.value && t.endpointId == g.endpointId.value)
  }

  ghost predicate ResourceExists(c: CatalogSnapshot, kind: ResourceKind, id: string)
  {
    match kind
    case KindModelAlias => exists a | a in c.aliases :: a.id == id
    case KindRoutePolicy => exists p | p in c.policies :: p.id == id
    case KindRoutingGroup => exists g | g in c.groups :: g.id == id
    case KindModelTarget => exists t | t in c.targets :: t.id == id
    case KindProviderEndpoint => exists e | e in c.endpoints :: e.id == id
    case KindPricingSku => true
  }

  ghost predicate ValidSpecGrant(c: CatalogSnapshot, g: ProviderGrant)
  {
    && GrantScopeKind(g).Some? && GrantScopeId(g).Some?
    && g.resourceKind.Some? && g.resourceId.Some?
    && ValidClosureMode(g)
    && ResourceExists(c, g.resourceKind.value, g.resourceId.value)
  }

  ghost predicate UniqueIds(c: CatalogSnapshot)
  {
    && UniqueBy(c.endpoints, EndpointId) && UniqueBy(c.credentials, CredentialId) && UniqueBy(c.targets, TargetId)
    && UniqueBy(c.aliases, AliasId) && UniqueBy(c.groups, GroupId) && UniqueBy(c.policies, PolicyId)
  }

  ghost predicate ValidCatalog(c: CatalogSnapshot, urlOk: string -> bool)
  {
    && UniqueIds(c)
    && (forall e :: e in c.endpoints ==> ValidEndpoint(e, urlOk))
    && (forall k :: k in c.credentials ==> ValidCredential(c, k))
    && (forall t :: t in c.targets ==> ValidTarget(c, t))
    && (forall p :: p in c.policies ==> ValidPolicy(c, p))
    && (forall g :: g in c.grants ==> if IsSpecShape(g) then ValidSpecGrant(c, g) else ValidLegacyGrant(c, g))
    && (forall a :: a in c.aliases ==> ValidAlias(c, a))
  }

  lemma ValidGrantsHaveValidModes(c: CatalogSnapshot, urlOk: string -> bool)
    requires ValidCatalog(c, urlOk)
    ensures ClosureModesValid(c.grants)
  {
    forall g | g in c.grants ensures ValidClosureMode(g) {
      assert if IsSpecShape(g) then ValidSpecGrant(c, g) else ValidLegacyGrant(c, g);
    }
  }

  // ---------- the indexes ----------

  /** The `index_*` functions: refuse a repeated id, otherwise give the keyed index. */
  method IndexBy<T(!new)>(items: seq<T>, key: T -> string) returns (r: Result<map<string, T>, GatewayError>)
    ensures r == if UniqueBy(items, key) then Ok(ById(items, key)) else Err(BadRequest(InvalidCatalog))
  {
    var index: map<string, T> := map[];
    for i := 0 to |items|
      invariant UniqueBy(items[..i], key)
      invariant index == ById(items[..i], key)
    {
      IndexStep(items, i, key);
      if key(items[i]) in index { return Err(BadRequest(InvalidCatalog)); }
      index := index[key(items[i]) := items[i]];
    }
    assert items[..|items|] == items;
    return Ok(index);
  }

  lemma IndexStep<T(!new)>(items: seq<T>, i: nat, key: T -> string)
    requires i < |items| && UniqueBy(items[..i], key)
    ensures ById(items[..i + 1], key) == ById(items[..i], key)[key(items[i]) := items[i]]
    ensures UniqueBy(items[..i + 1], key) <==> key(items[i]) !in ById(items[..i], key)
    ensures UniqueBy(items, key) ==> UniqueBy(items[..i + 1], key)
  {
    assert items[..i + 1] == items[..i] + [items[i]];
    ByIdAppend(items[..i], items[i], key);
    UniquePrefix(items, i + 1, key);
  }

  lemma UniquePrefix<T>(s: seq<T>, n: nat, key: T -> string)
    requires n <= |s|
    ensures UniqueBy(s, key) ==> UniqueBy(s[..n], key)
  {}

  method GroupTargetsByGroup(targets: seq<GroupTarget>) returns (index: map<string, seq<GroupTarget>>)
    ensures GroupsTargets(targets, index)
  {
    index := map[];
    for i := 0 to |targets|
      invariant GroupsTargets(targets[..i], index)
    {
      var t := targets[i];
      assert targets[..i + 1] == targets[..i] + [t];
      GroupOneMore(targets[..i], index, t);
      index := index[t.groupId := (if t.groupId in index then index[t.groupId] else []) + [t]];
    }
    assert targets[..|targets|] == targets;
  }

  /** The index lists every entry once, under its group, in list order, and knows no empty group. */
  ghost predicate GroupsTargets(targets: seq<GroupTarget>, index: map<string, seq<GroupTarget>>)
  {
    (forall g :: g in index ==> index[g] != []) && forall g :: IsGroup(targets, index, g)
  }

  ghost predicate IsGroup(targets: seq<GroupTarget>, index: map<string, seq<GroupTarget>>, g: string)
  {
    TargetsOf(targets, g) == if g in index then index[g] else []
  }

  lemma TargetsOfAppend(targets: seq<GroupTarget>, t: GroupTarget, g: string)
    ensures TargetsOf(targets + [t], g) == TargetsOf(targets, g) + if t.groupId == g then [t] else []
  {
    FilterAppend(targets, t, InGroup(g));
  }

  lemma OneGroup(targets: seq<GroupTarget>, index: map<string, seq<GroupTarget>>, t: GroupTarget, g: string)
    requires IsGroup(targets, index, g)
    ensures var group := (if t.groupId in index then index[t.groupId] else []) + [t];
            IsGroup(targets + [t], index[t.groupId := group], g)
  {
    TargetsOfAppend(targets, t, g);
  }

  lemma GroupOneMore(targets: seq<GroupTarget>, index: map<string, seq<GroupTarget>>, t: GroupTarget)
    requires GroupsTargets(targets, index)
    ensures var group := (if t.groupId in index then index[t.groupId] else []) + [t];
            GroupsTargets(targets + [t], index[t.groupId := group])
  {
    var group := (if t.groupId in index then index[t.groupId] else []) + [t];
    var targets', index' := targets + [t], index[t.groupId := group];
    forall g ensures IsGroup(targets', index', g) { OneGroup(targets, index, t, g); }
  }

  lemma {:induction false} FilterAppend<T>(s: seq<T>, x: T, p: T -> bool)
    ensures Filter(s + [x], p) == if p(x) then Filter(s, p) + [x] else Filter(s, p)
  {
    if s == [] {
      FilterCons(x, s, p);
      assert [x] + s == s + [x];
    } else {
      assert s + [x] == [s[0]] + (s[1..] + [x]);
      FilterCons(s[0], s[1..] + [x], p);
      FilterAppend(s[1..], x, p);
    }
  }

  // ---------- the checks over the indexes ----------

  predicate ChecksPass(c: CatalogSnapshot, urlOk: string -> bool,
                       endpoints: map<string, ProviderEndpoint>, credentials: map<string, UpstreamCredential>,
                       targets: map<string, ModelTarget>, aliases: map<string, ModelAlias>,
                       groups: map<string, RoutingGroup>, groupTargets: map<string, seq<GroupTarget>>,
                       policies: map<string, RoutePolicy>)
  {
    && (forall e | e in c.endpoints :: ValidEndpoint(e, urlOk))
    && CheckCredentials(c, endpoints) && CheckTargets(c, endpoints, credentials)
    && CheckPolicies(c, groups, groupTargets) && CheckGrants(c, aliases, policies, groups, targets, endpoints)
    && CheckAliases(c, policies, targets, groupTargets)
  }

  predicate CheckCredentials(c: CatalogSnapshot, endpoints: map<string, ProviderEndpoint>)
  {
    forall k | k in c.credentials :: k.endpointId in endpoints && ValidCredentialKind(endpoints[k.endpointId], k)
  }

  predicate CheckTargets(c: CatalogSnapshot, endpoints: map<string, ProviderEndpoint>,
                         credentials: map<string, UpstreamCredential>)
  {
    forall t | t in c.targets :: CheckTarget(t, endpoints, credentials)
  }

  predicate CheckPolicies(c: CatalogSnapshot, groups: map<string, RoutingGroup>,
                          groupTargets: map<string, seq<GroupTarget>>)
  {
    forall p | p in c.policies :: CheckPolicy(p, groups, groupTargets)
  }

  predicate CheckGrants(c: CatalogSnapshot, aliases: map<string, ModelAlias>, policies: map<string, RoutePolicy>,
                        groups: map<string, RoutingGroup>, targets: map<string, ModelTarget>,
                        endpoints: map<string, ProviderEndpoint>)
  {
    forall g | g in c.grants ::
      if IsSpecShape(g) then CheckSpecGrant(g, aliases, policies, groups, targets, endpoints)
      else CheckLegacyGrant(g, targets, endpoints)
  }

  predicate CheckAliases(c: CatalogSnapshot, policies: map<string, RoutePolicy>, targets: map<string, ModelTarget>,
                         groupTargets: map<string, seq<GroupTarget>>)
  {
    forall a | a in c.aliases :: CheckAlias(a, policies, targets, groupTargets)
  }

  predicate CheckTarget(t: ModelTarget, endpoints: map<string, ProviderEndpoint>,
                        credentials: map<string, UpstreamCredential>)
  {
    && t.endpointId in endpoints && t.protocolFamily in endpoints[t.endpointId].protocolFamilies
    && (t.credentialId.Some? ==>
          && t.credentialId.value in credentials
          && credentials[t.credentialId.value].endpointId == t.endpointId
          && credentials[t.credentialId.value].status.IsUsable())
  }

  predicate CheckPolicy(p: RoutePolicy, groups: map<string, RoutingGroup>, groupTargets: map<string, seq<GroupTarget>>)
  {
    && (p.stickyTtlSeconds.Some? ==> STICKY_TTL_MIN <= p.stickyTtlSeconds.value <= STICKY_TTL_MAX)
    && p.groupId in groups && p.groupId in groupTargets
  }

  predicate CheckAlias(a: ModelAlias, policies: map<string, RoutePolicy>, targets: map<string, ModelTarget>,
                       groupTargets: map<string, seq<GroupTarget>>)
  {
    && a.policyId in policies
    && var p := policies[a.policyId];
    && p.aliasId == a.id
    && (p.groupId in groupTargets ==>
          forall gt | gt in groupTargets[p.groupId] :: Serves(targets, gt, a.protocolFamily))
  }

  predicate CheckLegacyGrant(g: ProviderGrant, targets: map<string, ModelTarget>,
                             endpoints: map<string, ProviderEndpoint>)
  {
    && g.endpointId.Some? && g.endpointId.value in endpoints
    && (g.targetId.Some? ==> g.targetId.value in targets && targets[g.targetId.value].endpointId == g.endpointId.value)
  }

  predicate CheckSpecGrant(g: ProviderGrant, aliases: map<string, ModelAlias>, policies: map<string, RoutePolicy>,
                           groups: map<string, RoutingGroup>, targets: map<string, ModelTarget>,
                           endpoints: map<string, ProviderEndpoint>)
  {
    && GrantScopeKind(g).Some? && GrantScopeId(g).Some?
    && g.resourceKind.Some? && g.resourceId.Some?
    && ValidClosureMode(g)
    && match g.resourceKind.value
       case KindModelAlias => g.resourceId.value in aliases
       case KindRoutePolicy => g.resourceId.value in policies
       case KindRoutingGroup => g.resourceId.value in groups
       case KindModelTarget => g.resourceId.value in targets
       case KindProviderEndpoint => g.resourceId.value in endpoints
       case KindPricingSku => true
  }

  lemma CredentialCheck(c: CatalogSnapshot, k: UpstreamCredential)
    requires UniqueIds(c)
    ensures var endpoints := ById(c.endpoints, EndpointId);
            (k.endpointId in endpoints && ValidCredentialKind(endpoints[k.endpointId], k)) <==> ValidCredential(c, k)
  {
    ByIdMembership(c.endpoints, EndpointId, k.endpointId);
  }

  lemma TargetCheck(c: CatalogSnapshot, t: ModelTarget)
    requires UniqueIds(c)
    ensures CheckTarget(t, ById(c.endpoints, EndpointId), ById(c.credentials, CredentialId)) <==> ValidTarget(c, t)
  {
    ByIdMembership(c.endpoints, EndpointId, t.endpointId);
    if t.credentialId.Some? { ByIdMembership(c.credentials, CredentialId, t.credentialId.value); }
  }

  lemma PolicyCheck(c: CatalogSnapshot, p: RoutePolicy, groupTargets: map<string, seq<GroupTarget>>)
    requires UniqueIds(c) && GroupsTargets(c.groupTargets, groupTargets)
    ensures CheckPolicy(p, ById(c.groups, GroupId), groupTargets) <==> ValidPolicy(c, p)
  {
    ByIdMembership(c.groups, GroupId, p.groupId);
    var ts := TargetsOf(c.groupTargets, p.groupId);
    assert IsGroup(c.groupTargets, groupTargets, p.groupId);
    if p.groupId in groupTargets { assert ts[0] in c.groupTargets; }
  }

  lemma LegacyGrantCheck(c: CatalogSnapshot, g: ProviderGrant)
    requires UniqueIds(c)
    ensures CheckLegacyGrant(g, ById(c.targets, TargetId), ById(c.endpoints, EndpointId)) <==> ValidLegacyGrant(c, g)
  {
    if g.endpointId.Some? { ByIdMembership(c.endpoints, EndpointId, g.endpointId.value); }
    if g.targetId.Some? { ByIdMembership(c.targets, TargetId, g.targetId.value); }
  }

  lemma SpecGrantCheck(c: CatalogSnapshot, g: ProviderGrant)
    requires UniqueIds(c)
    ensures CheckSpecGrant(g, ById(c.aliases, AliasId), ById(c.policies, PolicyId), ById(c.groups, GroupId),
                           ById(c.targets, TargetId), ById(c.endpoints, EndpointId))
        <==> ValidSpecGrant(c, g)
  {
    if g.resourceKind.Some? && g.resourceId.Some? {
      match g.resourceKind.value
      case KindModelAlias => ByIdMembership(c.aliases, AliasId, g.resourceId.value);
      case KindRoutePolicy => ByIdMembership(c.policies, PolicyId, g.resourceId.value);
      case KindRoutingGroup => ByIdMembership(c.groups, GroupId, g.resourceId.value);
      case KindModelTarget => ByIdMembership(c.targets, TargetId, g.resourceId.value);
      case KindProviderEndpoint => ByIdMembership(c.endpoints, EndpointId, g.resourceId.value);
      case KindPricingSku =>
    }
  }

  predicate Serves(targets: map<string, ModelTarget>, gt: GroupTarget, family: ProtocolFamily)
  {
    gt.targetId in targets && targets[gt.targetId].protocolFamily == family
  }

  lemma ServesCheck(c: CatalogSnapshot, gt: GroupTarget, family: ProtocolFamily)
    requires UniqueIds(c)
    ensures Serves(ById(c.targets, TargetId), gt, family) <==>
            exists t | t in c.targets :: t.id == gt.targetId && t.protocolFamily == family
  {
    ByIdMembership(c.targets, TargetId, gt.targetId);
  }

  lemma GroupCheck(c: CatalogSnapshot, groupId: string, family: ProtocolFamily,
                   groupTargets: map<string, seq<GroupTarget>>)
    requires UniqueIds(c) && IsGroup(c.groupTargets, groupTargets, groupId)
    ensures GroupServes(c, groupId, family) <==>
            (groupId in groupTargets ==>
               forall gt | gt in groupTargets[groupId] :: Serves(ById(c.targets, TargetId), gt, family))
  {
    forall gt | gt in c.groupTargets
      ensures Serves(ById(c.targets, TargetId), gt, family) <==>
              exists t | t in c.targets :: t.id == gt.targetId && t.protocolFamily == family
    {
      ServesCheck(c, gt, family);
    }
  }

  lemma AliasCheck(c: CatalogSnapshot, a: ModelAlias, groupTargets: map<string, seq<GroupTarget>>)
    requires UniqueIds(c) && GroupsTargets(c.groupTargets, groupTargets)
    ensures CheckAlias(a, ById(c.policies, PolicyId), ById(c.targets, TargetId), groupTargets) <==> ValidAlias(c, a)
  {
    ByIdMembership(c.policies, PolicyId, a.policyId);
    if a.policyId in ById(c.policies, PolicyId) {
      var p := ById(c.policies, PolicyId)[a.policyId];
      assert IsGroup(c.groupTargets, groupTargets, p.groupId);
      GroupCheck(c, p.groupId, a.protocolFamily, groupTargets);
    }
  }

  lemma CredentialsCheck(c: CatalogSnapshot)
    requires UniqueIds(c)
    ensures CheckCredentials(c, ById(c.endpoints, EndpointId)) <==>
            forall k :: k in c.credentials ==> ValidCredential(c, k)
  {
    forall k | k in c.credentials { CredentialCheck(c, k); }
  }

  lemma TargetsCheck(c: CatalogSnapshot)
    requires UniqueIds(c)
    ensures CheckTargets(c, ById(c.endpoints, EndpointId), ById(c.credentials, CredentialId)) <==>
            forall t :: t in c.targets ==> ValidTarget(c, t)
  {
    forall t | t in c.targets { TargetCheck(c, t); }
  }

  lemma PoliciesCheck(c: CatalogSnapshot, groupTargets: map<string, seq<GroupTarget>>)
    requires UniqueIds(c) && GroupsTargets(c.groupTargets, groupTargets)
    ensures CheckPolicies(c, ById(c.groups, GroupId), groupTargets) <==>
            forall p :: p in c.policies ==> ValidPolicy(c, p)
  {
    forall p | p in c.policies { PolicyCheck(c, p, groupTargets); }
  }

  lemma GrantsCheck(c: CatalogSnapshot)
    requires UniqueIds(c)
    ensures CheckGrants(c, ById(c.aliases, AliasId), ById(c.policies, PolicyId), ById(c.groups, GroupId),
                        ById(c.targets, TargetId), ById(c.endpoints, EndpointId)) <==>
            forall g :: g in c.grants ==> if IsSpecShape(g) then ValidSpecGrant(c, g) else ValidLegacyGrant(c, g)
  {
    forall g | g in c.grants { LegacyGrantCheck(c, g); }
    forall g | g in c.grants { SpecGrantCheck(c, g); }
  }

  lemma AliasesCheck(c: CatalogSnapshot, groupTargets: map<string, seq<GroupTarget>>)
    requires UniqueIds(c) && GroupsTargets(c.groupTargets, groupTargets)
    ensures CheckAliases(c, ById(c.policies, PolicyId), ById(c.targets, TargetId), groupTargets) <==>
            forall a :: a in c.aliases ==> ValidAlias(c, a)
  {
    forall a | a in c.aliases { AliasCheck(c, a, groupTargets); }
  }

  /** Checking against the indexes is checking the relation between the lists. */
  lemma ChecksMeanValid(c: CatalogSnapshot, urlOk: string -> bool, groupTargets: map<string, seq<GroupTarget>>)
    requires UniqueIds(c) && GroupsTargets(c.groupTargets, groupTargets)
    ensures ChecksPass(c, urlOk, ById(c.endpoints, EndpointId), ById(c.credentials, CredentialId),
                       ById(c.targets, TargetId), ById(c.aliases, AliasId), ById(c.groups, GroupId),
                       groupTargets, ById(c.policies, PolicyId))
        <==> ValidCatalog(c, urlOk)
  {
    CredentialsCheck(c);
    TargetsCheck(c);
    PoliciesCheck(c, groupTargets);
    GrantsCheck(c);
    AliasesCheck(c, groupTargets);
  }

  method Validate(c: CatalogSnapshot, urlOk: string -> bool) returns (r: Result<(), GatewayError>)
    ensures r == if ValidCatalog(c, urlOk) then Ok(()) else Err(BadRequest(InvalidCatalog))
  {
    r := Err(BadRequest(InvalidCatalog));
    var endpoints := IndexBy(c.endpoints, EndpointId);
    if endpoints.Err? { return; }
    var credentials := IndexBy(c.credentials, CredentialId);
    if credentials.Err? { return; }
    var targets := IndexBy(c.targets, TargetId);
    if targets.Err? { return; }
    var aliases := IndexBy(c.aliases, AliasId);
    if aliases.Err? { return; }
    var groups := IndexBy(c.groups, GroupId);
    if groups.Err? { return; }
    var groupTargets := GroupTargetsByGroup(c.groupTargets);
    var policies := IndexBy(c.policies, PolicyId);
    if policies.Err? { return; }
    ChecksMeanValid(c, urlOk, groupTargets);
    if ChecksPass(c, urlOk, endpoints.value, credentials.value, targets.value, aliases.value, groups.value,
                  groupTargets, policies.value) {
      r := Ok(());
    }
  }
}
