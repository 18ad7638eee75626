/** The runtime catalog of a config snapshot: eight lists of records, as the planner reads them. */
module Catalog {
  import opened Base

  datatype ProtocolFamily =
    | OpenAiResponses | OpenAiChat | AnthropicMessages
    | GeminiGenerateContent | BedrockConverse | ProviderNative

  datatype ResourceStatus = Active | Disabled | Draining | Degraded | Deleted

  datatype CredentialStatus =
    | Usable | Rotating | CredentialDisabled | CredentialExpired | CredentialError | CredentialDeleted
  {
    predicate IsUsable() { Usable? || Rotating? }
  }

  datatype ProviderEndpoint = ProviderEndpoint(
    id: string, tenantId: string, name: string, providerKind: string,
    protocolFamilies: seq<ProtocolFamily>, upstreamBaseUrl: string, status: ResourceStatus)

  datatype UpstreamCredential = UpstreamCredential(
    id: string, tenantId: string, endpointId: string, credentialKind: string,
    secretRefId: string, status: CredentialStatus)

  datatype ModelTarget = ModelTarget(
    id: string, tenantId: string, endpointId: string, credentialId: Option<string>,
    protocolFamily: ProtocolFamily, upstreamModelId: string, pricingSkuId: Option<string>,
    status: ResourceStatus, supportsStreaming: bool)

  datatype ModelAlias = ModelAlias(
    id: string, tenantId: string, organizationId: Option<string>, projectId: Option<string>,
    name: string, protocolFamily: ProtocolFamily, policyId: string, status: ResourceStatus)

  datatype RoutingGroup = RoutingGroup(id: string, tenantId: string, status: ResourceStatus)

  datatype GroupTarget = GroupTarget(
    id: string, groupId: string, targetId: string, weight: nat, priority: nat, status: ResourceStatus)

  datatype RoutePolicy = RoutePolicy(
    id: string, tenantId: string, aliasId: string, groupId: string, status: ResourceStatus,
    stickyTtlSeconds: Option<int>)

  datatype ScopeKind = Organization | Project

  datatype ResourceKind =
    | KindModelAlias | KindRoutePolicy | KindRoutingGroup
    | KindModelTarget | KindProviderEndpoint | KindPricingSku

  datatype Effect = Allow | Deny

  datatype ClosureMode = SelfOnly | IncludeDescendants | DenyDescendants

  datatype ProviderGrant = ProviderGrant(
    id: string, tenantId: string, scopeKind: Option<ScopeKind>, scopeId: Option<string>,
    organizationId: Option<string>, projectId: Option<string>, principalId: Option<string>,
    resourceKind: Option<ResourceKind>, resourceId: Option<string>,
    effect: Effect, closureMode: ClosureMode,
    endpointId: Option<string>, targetId: Option<string>, status: ResourceStatus)

  datatype CatalogSnapshot = CatalogSnapshot(
    endpoints: seq<ProviderEndpoint>, credentials: seq<UpstreamCredential>,
    targets: seq<ModelTarget>, aliases: seq<ModelAlias>, groups: seq<RoutingGroup>,
    groupTargets: seq<GroupTarget>, policies: seq<RoutePolicy>, grants: seq<ProviderGrant>)

  datatype Actor = Actor(
    tenantId: string, organizationId: Option<string>, projectId: Option<string>, principalId: Option<string>)

  /** Error causes; the message text around them is not modelled. */
  datatype BadRequestCause = InvalidCatalog | AmbiguousAlias | AliasProtocolMismatch

  datatype GatewayError = NotFound(aliasName: string) | BadRequest(cause: BadRequestCause) | NotReady

  function EndpointId(e: ProviderEndpoint): string { e.id }
  function CredentialId(c: UpstreamCredential): string { c.id }
  function TargetId(t: ModelTarget): string { t.id }
  function AliasId(a: ModelAlias): string { a.id }
  function GroupId(g: RoutingGroup): string { g.id }
  function PolicyId(p: RoutePolicy): string { p.id }

  function InGroup(groupId: string): GroupTarget -> bool
  {
    (t: GroupTarget) => t.groupId == groupId
  }

  /** The entries of one routing group, in list order. */
  function TargetsOf(targets: seq<GroupTarget>, groupId: string): (r: seq<GroupTarget>)
    ensures forall t :: t in r <==> t in targets && t.groupId == groupId
  {
    FilterElements(targets, InGroup(groupId));
    Filter(targets, InGroup(groupId))
  }
}
