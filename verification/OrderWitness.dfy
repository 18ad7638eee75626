/** A valid catalog whose route depends on the order in which it lists two entries. */
module OrderWitness {
  import opened Base
  import opened Catalog
  import opened Grants
  import opened HotState
  import opened Validation
  import opened Planner
  import opened RoutingLaws
  import opened RoutingOrder

  function Target(id: string): ModelTarget
  {
    ModelTarget(id, "ten_1", "pe_1", None, OpenAiChat, "model-" + id, None, Active, true)
  }

  const PREFERRED := GroupTarget("rgt_1", "rg_1", "mt_a", 1, 0, Active)
  const REMEMBERED := GroupTarget("rgt_2", "rg_1", "mt_b", 1, 1, Active)
  const SWITCHED_OFF := GroupTarget("rgt_3", "rg_1", "mt_b", 1, 1, Disabled)

  const ALIAS := ModelAlias("ma_1", "ten_1", None, None, "chat", OpenAiChat, "rp_1", Active)
  const POLICY := RoutePolicy("rp_1", "ten_1", "ma_1", "rg_1", Active, Some(60))
  const GROUP := RoutingGroup("rg_1", "ten_1", Active)

  function Endpoint(url: string): ProviderEndpoint
  {
    ProviderEndpoint("pe_1", "ten_1", "main", "openai", [OpenAiChat], url, Active)
  }

  const GRANT := ProviderGrant("pg_1", "ten_1", None, None, None, None, None, None, None, Allow, SelfOnly,
                               Some("pe_1"), None, Active)

  function Listing(url: string, entries: seq<GroupTarget>): CatalogSnapshot
  {
    CatalogSnapshot([Endpoint(url)], [], [Target("mt_a"), Target("mt_b")], [ALIAS], [GROUP], entries, [POLICY], [GRANT])
  }

  /** A request of an actor whose last route was over the second target. */
  function Request(): PlanRequest
  {
    PlanRequest(Actor("ten_1", None, None, None), OpenAiChat, "chat", false,
                RouteHotState((_, _, _, _) => false, (_, _, _, _) => Healthy,
                              (_, _, _, _, _, _) => Some(StickyRecord("ten_1", None, "ma_1", "hash", "rg_1", "mt_b",
                                                                      "pe_1", 1, 0, 100))),
                Some(1), 0, Some("hash"))
  }

  ghost predicate ThreeEntries(entries: seq<GroupTarget>)
  {
    |entries| == 3 && forall t :: t in entries <==> t in {PREFERRED, REMEMBERED, SWITCHED_OFF}
  }

  lemma ListingIsValid(url: string, entries: seq<GroupTarget>, urlOk: string -> bool)
    requires urlOk(url) && ThreeEntries(entries)
    ensures ValidCatalog(Listing(url, entries), urlOk)
  {
    var c := Listing(url, entries);
    assert c.targets[0] == Target("mt_a") && c.targets[1] == Target("mt_b");
    assert Endpoint(url) in c.endpoints && Target("mt_a") in c.targets && Target("mt_b") in c.targets;
    assert GROUP in c.groups && PREFERRED in c.groupTargets && POLICY in c.policies;
  }

  lemma ListingIdsAreUnique(url: string, entries: seq<GroupTarget>)
    ensures UniqueIds(Listing(url, entries))
  {
    var c := Listing(url, entries);
    assert c.targets[0] == Target("mt_a") && c.targets[1] == Target("mt_b");
  }

  lemma OnlyAliasResolves(actor: Actor)
    requires actor.tenantId == "ten_1"
    ensures ResolveAlias([ALIAS], actor, "chat") == Ok(ALIAS)
  {
    var aliases := [ALIAS];
    assert ALIAS in aliases && Reaches(ALIAS, actor, "chat");
    ResolveAliasMeans(aliases, actor, "chat");
    assert BestAlias(aliases, actor, "chat", ALIAS);
  }

  lemma ListingBinds(url: string, entries: seq<GroupTarget>)
    ensures UniqueIds(Listing(url, entries))
    ensures ResolveBinding(Listing(url, entries), Request()) == Ok(Binding(ALIAS, POLICY, GROUP))
  {
    ListingIdsAreUnique(url, entries);
    OnlyAliasResolves(Request().actor);
    assert FindById([POLICY], PolicyId, "rp_1") == Some(POLICY);
    assert FindById([GROUP], GroupId, "rg_1") == Some(GROUP);
  }

  lemma ListingGrants(url: string, target: ModelTarget)
    ensures var endpoint := Endpoint(url);
            GrantAllows([GRANT], Request().actor, PathOf(ALIAS, POLICY, GROUP, target, endpoint), endpoint, target)
  {
    var actor, grants := Request().actor, [GRANT];
    assert GRANT in grants && !HasSpecGrants(grants, actor);
    assert LegacyAllows(grants, actor, Endpoint(url), target);
  }

  lemma ListingLooksUp(url: string, entries: seq<GroupTarget>, t: GroupTarget)
    requires t == PREFERRED || t == REMEMBERED
    ensures var x := ContextOf(Listing(url, entries), Request(), Binding(ALIAS, POLICY, GROUP));
            && t.targetId in x.targets && x.targets[t.targetId] == Target(t.targetId)
            && "pe_1" in x.endpoints && x.endpoints["pe_1"] == Endpoint(url)
  {
    var c := Listing(url, entries);
    ListingIdsAreUnique(url, entries);
    assert c.targets[0] == Target("mt_a") && c.targets[1] == Target("mt_b");
    assert Target(t.targetId) in c.targets && Endpoint(url) in c.endpoints;
    ByIdLookup(c.targets, TargetId, Target(t.targetId));
    ByIdLookup(c.endpoints, EndpointId, Endpoint(url));
  }

  /** A candidate that no filter refuses, filter by filter. */
  lemma EvaluatesTo(x: Context, t: GroupTarget, target: ModelTarget, endpoint: ProviderEndpoint)
    requires t.status.Active? && t.targetId in x.targets && x.targets[t.targetId] == target
    requires target.endpointId in x.endpoints && x.endpoints[target.endpointId] == endpoint
    requires target.status.Active? && endpoint.status.Active? && target.credentialId.None?
    requires ServesRequest(x.q, target, endpoint)
    requires GrantAllows(x.grants, x.q.actor, PathOf(x.b.alias, x.b.policy, x.b.group, target, endpoint),
                         endpoint, target)
    ensures Evaluate(x, t) == Eligible(target, endpoint)
  {
  }

  lemma ListingEvaluates(url: string, entries: seq<GroupTarget>, t: GroupTarget)
    requires t == PREFERRED || t == REMEMBERED
    ensures var x := ContextOf(Listing(url, entries), Request(), Binding(ALIAS, POLICY, GROUP));
            Evaluate(x, t) == Eligible(Target(t.targetId), Endpoint(url))
  {
    var x := ContextOf(Listing(url, entries), Request(), Binding(ALIAS, POLICY, GROUP));
    ListingLooksUp(url, entries, t);
    ListingGrants(url, Target(t.targetId));
    assert ServesRequest(Request(), Target(t.targetId), Endpoint(url));
    EvaluatesTo(x, t, Target(t.targetId), Endpoint(url));
  }

  lemma BothAreForemost(url: string, entries: seq<GroupTarget>, t: GroupTarget)
    requires ThreeEntries(entries) && entries[0] == t && (t == REMEMBERED || t == SWITCHED_OFF)
    ensures ForemostAndFirst(Listing(url, entries), Request(), t)
  {
    ListingBinds(url, entries);
    LeqTotal("mt_b", "mt_b");
  }

  /** The catalog selects a route over the target. */
  ghost predicate RoutesTo(c: CatalogSnapshot, q: PlanRequest, targetId: string)
  {
    Plan(c, q).Ok? && Plan(c, q).value.outcome.Selected? && Plan(c, q).value.outcome.selection.targetId == targetId
  }

  lemma StaysOnListing(url: string, entries: seq<GroupTarget>)
    requires ThreeEntries(entries) && entries[0] == REMEMBERED
    ensures RoutesTo(Listing(url, entries), Request(), "mt_b")
  {
    BothAreForemost(url, entries, REMEMBERED);
    ListingBinds(url, entries);
    ListingEvaluates(url, entries, REMEMBERED);
    HitListedFirst(Listing(url, entries), Request(), REMEMBERED);
  }

  lemma MovesOnListing(url: string, entries: seq<GroupTarget>)
    requires ThreeEntries(entries) && entries[0] == SWITCHED_OFF
    ensures RoutesTo(Listing(url, entries), Request(), "mt_a")
  {
    var c, q := Listing(url, entries), Request();
    BothAreForemost(url, entries, SWITCHED_OFF);
    ListingBinds(url, entries);
    ListingEvaluates(url, entries, PREFERRED);
    var w := MissListedFirst(c, q, SWITCHED_OFF, PREFERRED);
    PreferredIsLeast(EvaluatorOf(BoundContext(c, q)), entries, w);
  }

  lemma PreferredIsLeast(eval: Evaluator, entries: seq<GroupTarget>, w: GroupTarget)
    requires ThreeEntries(entries) && LeastEligible(eval, TargetsOf(entries, "rg_1"), w) && eval(PREFERRED).Eligible?
    ensures w == PREFERRED
  {
    assert PREFERRED in TargetsOf(entries, "rg_1");
    assert w.priority <= PREFERRED.priority;
  }

  lemma ListingsShuffled(url: string, kept: seq<GroupTarget>, moved: seq<GroupTarget>)
    requires kept == [REMEMBERED, SWITCHED_OFF, PREFERRED] && moved == [SWITCHED_OFF, REMEMBERED, PREFERRED]
    ensures ThreeEntries(kept) && ThreeEntries(moved) && Shuffled(Listing(url, kept), Listing(url, moved))
  {
    assert multiset(kept) == multiset(moved);
  }

  /** The same valid catalog up to order: listed one way the plan keeps the remembered target, listed the other
      way it moves to the preferred one. */
  lemma OrderChangesRoute(url: string, urlOk: string -> bool, kept: seq<GroupTarget>, moved: seq<GroupTarget>)
    requires urlOk(url)
    requires kept == [REMEMBERED, SWITCHED_OFF, PREFERRED] && moved == [SWITCHED_OFF, REMEMBERED, PREFERRED]
    ensures ValidCatalog(Listing(url, kept), urlOk) && Shuffled(Listing(url, kept), Listing(url, moved))
    ensures RoutesTo(Listing(url, kept), Request(), "mt_b") && RoutesTo(Listing(url, moved), Request(), "mt_a")
  {
    ListingsShuffled(url, kept, moved);
    StaysOnListing(url, kept);
    MovesOnListing(url, moved);
    ListingIsValid(url, kept, urlOk);
  }
}
