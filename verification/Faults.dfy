/** The faults for which validation refuses a catalog, one by one, and that it refuses for nothing else. */
module Faults {
  import opened Base
  import opened Catalog
  import opened Grants
  import opened Validation

  ghost predicate Repeats<T>(s: seq<T>, key: T -> string)
  {
    exists i, j :: 0 <= i < j < |s| && key(s[i]) == key(s[j])
  }

  ghost predicate RepeatsAnId(c: CatalogSnapshot)
  {
    || Repeats(c.endpoints, (e: ProviderEndpoint) => e.id) || Repeats(c.credentials, (k: UpstreamCredential) => k.id)
    || Repeats(c.targets, (t: ModelTarget) => t.id) || Repeats(c.aliases, (a: ModelAlias) => a.id)
    || Repeats(c.groups, (g: RoutingGroup) => g.id) || Repeats(c.policies, (p: RoutePolicy) => p.id)
  }

  /** No protocol family, or a base address that is not an absolute http or https one. */
  ghost predicate EndpointFault(e: ProviderEndpoint, urlOk: string -> bool)
  {
    |e.protocolFamilies| == 0 || !urlOk(e.upstreamBaseUrl)
  }

  /** No endpoint, no secret, a Codex login elsewhere than at Codex, or another kind of login. */
  ghost predicate CredentialFault(c: CatalogSnapshot, k: UpstreamCredential)
  {
    || (forall e :: e in c.endpoints ==> e.id != k.endpointId)
    || |k.secretRefId| == 0
    || (k.credentialKind == "codex_oauth"
        && exists e :: e in c.endpoints && e.id == k.endpointId && e.providerKind != "codex")
    || (k.credentialKind != "codex_oauth" && exists before :: k.credentialKind == before + "oauth")
  }

  /** No endpoint, a protocol the endpoint does not speak, or a credential that is missing, of another endpoint, or
      neither active nor rotating. */
  ghost predicate TargetFault(c: CatalogSnapshot, t: ModelTarget)
  {
    || (forall e :: e in c.endpoints ==> e.id != t.endpointId)
    || (exists e :: e in c.endpoints && e.id == t.endpointId && t.protocolFamily !in e.protocolFamilies)
    || (t.credentialId.Some? && forall k :: k in c.credentials ==> k.id != t.credentialId.value)
    || (t.credentialId.Some? && exists k :: k in c.credentials && k.id == t.credentialId.value
                                            && (k.endpointId != t.endpointId || k.status !in {Usable, Rotating}))
  }

  /** A sticky lifetime of less than a minute or more than a day, no group, or no entry in the group. */
  ghost predicate PolicyFault(c: CatalogSnapshot, p: RoutePolicy)
  {
    || (p.stickyTtlSeconds.Some? && (p.stickyTtlSeconds.value < 60 || 86_400 < p.stickyTtlSeconds.value))
    || (forall g :: g in c.groups ==> g.id != p.groupId)
    || (forall t :: t in c.groupTargets ==> t.groupId != p.groupId)
  }

  /** No policy, the policy of another alias, or an entry of the policy's group whose target is missing or of
      another protocol. */
  ghost predicate AliasFault(c: CatalogSnapshot, a: ModelAlias)
  {
    || (forall p :: p in c.policies ==> p.id != a.policyId)
    || (exists p :: p in c.policies && p.id == a.policyId && p.aliasId != a.id)
    || (exists p, gt :: p in c.policies && p.id == a.policyId && gt in c.groupTargets && gt.groupId == p.groupId
                        && EntryFault(c, gt, a.protocolFamily))
  }

  ghost predicate EntryFault(c: CatalogSnapshot, gt: GroupTarget, family: ProtocolFamily)
  {
    || (forall t :: t in c.targets ==> t.id != gt.targetId)
    || (exists t :: t in c.targets && t.id == gt.targetId && t.protocolFamily != family)
  }

  /** A grant that names only an endpoint and perhaps a target. */
  ghost predicate InLegacyForm(g: ProviderGrant)
  {
    && g.scopeKind == None && g.scopeId == None && g.resourceKind == None && g.resourceId == None
    && g.effect == Allow && g.closureMode == SelfOnly
  }

  ghost predicate LegacyFault(c: CatalogSnapshot, g: ProviderGrant)
  {
    || g.endpointId == None
    || (forall e :: e in c.endpoints ==> Some(e.id) != g.endpointId)
    || (g.targetId.Some? && forall t :: t in c.targets ==> t.id != g.targetId.value)
    || (g.targetId.Some?
        && exists t :: t in c.targets && t.id == g.targetId.value && Some(t.endpointId) != g.endpointId)
  }

  /** No scope, no resource, a mode that does not go with the effect, or a resource that is not in the catalog. */
  ghost predicate ClosureFault(c: CatalogSnapshot, g: ProviderGrant)
  {
    || (g.scopeKind == None && g.projectId == None && g.organizationId == None)
    || (g.scopeId == None && g.projectId == None && g.organizationId == None)
    || g.resourceKind == None || g.resourceId == None
    || (g.effect == Allow && g.closureMode == DenyDescendants)
    || (g.effect == Deny && g.closureMode == IncludeDescendants)
    || (g.resourceKind == Some(KindModelAlias) && forall a :: a in c.aliases ==> Some(a.id) != g.resourceId)
    || (g.resourceKind == Some(KindRoutePolicy) && forall p :: p in c.policies ==> Some(p.id) != g.resourceId)
    || (g.resourceKind == Some(KindRoutingGroup) && forall r :: r in c.groups ==> Some(r.id) != g.resourceId)
    || (g.resourceKind == Some(KindModelTarget) && forall t :: t in c.targets ==> Some(t.id) != g.resourceId)
    || (g.resourceKind == Some(KindProviderEndpoint) && forall e :: e in c.endpoints ==> Some(e.id) != g.resourceId)
  }

  ghost predicate GrantFault(c: CatalogSnapshot, g: ProviderGrant)
  {
    if InLegacyForm(g) then LegacyFault(c, g) else ClosureFault(c, g)
  }

  ghost predicate HasFault(c: CatalogSnapshot, urlOk: string -> bool)
  {
    || RepeatsAnId(c)
    || (exists e :: e in c.endpoints && EndpointFault(e, urlOk))
    || (exists k :: k in c.credentials && CredentialFault(c, k))
    || (exists t :: t in c.targets && TargetFault(c, t))
    || (exists p :: p in c.policies && PolicyFault(c, p))
    || (exists g :: g in c.grants && GrantFault(c, g))
    || (exists a :: a in c.aliases && AliasFault(c, a))
  }

  // ---------- record by record ----------

  lemma UniqueIffNoRepeat<T(!new)>(s: seq<T>, key: T -> string, id: T -> string)
    requires forall x :: key(x) == id(x)
    ensures UniqueBy(s, key) <==> !Repeats(s, id)
  {
  }

  lemma IdsFault(c: CatalogSnapshot)
    ensures UniqueIds(c) <==> !RepeatsAnId(c)
  {
    UniqueIffNoRepeat(c.endpoints, EndpointId, (e: ProviderEndpoint) => e.id);
    UniqueIffNoRepeat(c.credentials, CredentialId, (k: UpstreamCredential) => k.id);
    UniqueIffNoRepeat(c.targets, TargetId, (t: ModelTarget) => t.id);
    UniqueIffNoRepeat(c.aliases, AliasId, (a: ModelAlias) => a.id);
    UniqueIffNoRepeat(c.groups, GroupId, (g: RoutingGroup) => g.id);
    UniqueIffNoRepeat(c.policies, PolicyId, (p: RoutePolicy) => p.id);
  }

  /** With unique ids two records with one id are one. */
  lemma SameIdSame<T(!new)>(s: seq<T>, key: T -> string, x: T, y: T)
    requires UniqueBy(s, key) && x in s && y in s && key(x) == key(y)
    ensures x == y
  {
    ByIdMembership(s, key, key(x));
  }

  lemma EndsWithMeans(s: string, suffix: string)
    ensures EndsWith(s, suffix) <==> exists before :: s == before + suffix
  {
    if EndsWith(s, suffix) { assert s == s[..|s| - |suffix|] + suffix; }
    if before :| s == before + suffix { assert s[|s| - |suffix|..] == suffix; }
  }

  lemma CredentialFaultMeans(c: CatalogSnapshot, k: UpstreamCredential)
    requires UniqueIds(c)
    ensures ValidCredential(c, k) <==> !CredentialFault(c, k)
  {
    EndsWithMeans(k.credentialKind, "oauth");
    forall x, y | x in c.endpoints && y in c.endpoints && x.id == y.id ensures x == y {
      SameIdSame(c.endpoints, EndpointId, x, y);
    }
  }

  lemma TargetFaultMeans(c: CatalogSnapshot, t: ModelTarget)
    requires UniqueIds(c)
    ensures ValidTarget(c, t) <==> !TargetFault(c, t)
  {
    forall x, y | x in c.endpoints && y in c.endpoints && x.id == y.id ensures x == y {
      SameIdSame(c.endpoints, EndpointId, x, y);
    }
    forall x, y | x in c.credentials && y in c.credentials && x.id == y.id ensures x == y {
      SameIdSame(c.credentials, CredentialId, x, y);
    }
  }

  lemma PolicyFaultMeans(c: CatalogSnapshot, p: RoutePolicy)
    ensures ValidPolicy(c, p) <==> !PolicyFault(c, p)
  {
  }

  lemma EntryFaultMeans(c: CatalogSnapshot, gt: GroupTarget, family: ProtocolFamily)
    requires UniqueIds(c)
    ensures (exists t | t in c.targets :: t.id == gt.targetId && t.protocolFamily == family) <==>
            !EntryFault(c, gt, family)
  {
    forall x, y | x in c.targets && y in c.targets && x.id == y.id ensures x == y {
      SameIdSame(c.targets, TargetId, x, y);
    }
  }

  lemma ServesMeans(c: CatalogSnapshot, groupId: string, family: ProtocolFamily)
    requires UniqueIds(c)
    ensures GroupServes(c, groupId, family) <==>
            forall gt :: gt in c.groupTargets && gt.groupId == groupId ==> !EntryFault(c, gt, family)
  {
    forall gt | gt in c.groupTargets
      ensures (exists t | t in c.targets :: t.id == gt.targetId && t.protocolFamily == family) <==>
              !EntryFault(c, gt, family)
    {
      EntryFaultMeans(c, gt, family);
    }
  }

  lemma AliasFaultMeans(c: CatalogSnapshot, a: ModelAlias)
    requires UniqueIds(c)
    ensures ValidAlias(c, a) <==> !AliasFault(c, a)
  {
    forall x, y | x in c.policies && y in c.policies && x.id == y.id ensures x == y {
      SameIdSame(c.policies, PolicyId, x, y);
    }
    forall p | p in c.policies
      ensures GroupServes(c, p.groupId, a.protocolFamily) <==>
              forall gt :: gt in c.groupTargets && gt.groupId == p.groupId ==> !EntryFault(c, gt, a.protocolFamily)
    {
      ServesMeans(c, p.groupId, a.protocolFamily);
    }
  }

  lemma LegacyFaultMeans(c: CatalogSnapshot, g: ProviderGrant)
    requires UniqueIds(c)
    ensures ValidLegacyGrant(c, g) <==> !LegacyFault(c, g)
  {
    forall x, y | x in c.targets && y in c.targets && x.id == y.id ensures x == y {
      SameIdSame(c.targets, TargetId, x, y);
    }
  }

  lemma ClosureFaultMeans(c: CatalogSnapshot, g: ProviderGrant)
    ensures ValidSpecGrant(c, g) <==> !ClosureFault(c, g)
  {
  }

  lemma GrantFaultMeans(c: CatalogSnapshot, g: ProviderGrant)
    requires UniqueIds(c)
    ensures (if IsSpecShape(g) then ValidSpecGrant(c, g) else ValidLegacyGrant(c, g)) <==> !GrantFault(c, g)
  {
    LegacyFaultMeans(c, g);
    ClosureFaultMeans(c, g);
  }

  /** A catalog is valid exactly when it has none of the faults. */
  lemma ValidIffNoFault(c: CatalogSnapshot, urlOk: string -> bool)
    ensures ValidCatalog(c, urlOk) <==> !HasFault(c, urlOk)
  {
    IdsFault(c);
    if UniqueIds(c) {
      forall k | k in c.credentials ensures ValidCredential(c, k) <==> !CredentialFault(c, k) {
        CredentialFaultMeans(c, k);
      }
      forall t | t in c.targets ensures ValidTarget(c, t) <==> !TargetFault(c, t) { TargetFaultMeans(c, t); }
      forall p | p in c.policies ensures ValidPolicy(c, p) <==> !PolicyFault(c, p) { PolicyFaultMeans(c, p); }
      forall a | a in c.aliases ensures ValidAlias(c, a) <==> !AliasFault(c, a) { AliasFaultMeans(c, a); }
      forall g | g in c.grants
        ensures (if IsSpecShape(g) then ValidSpecGrant(c, g) else ValidLegacyGrant(c, g)) <==> !GrantFault(c, g)
      {
        GrantFaultMeans(c, g);
      }
    }
  }
}
