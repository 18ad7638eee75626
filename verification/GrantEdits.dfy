/** What editing the grant list of a catalog can do to route plans. */
module GrantEdits {
  import opened Base
  import opened Catalog
  import opened Grants
  import opened Evidence
  import opened Planner
  import opened RoutingLaws

  lemma SameEvaluationsSameAttempt(x: Context, y: Context, eval: Evaluator, eval': Evaluator,
                                   candidates: seq<GroupTarget>)
    requires y == x.(grants := y.grants) && forall t :: eval(t) == eval'(t)
    ensures TrySticky(x, eval, candidates) == TrySticky(y, eval', candidates)
  {}

  lemma SameEvaluationsSameReasons(eval: Evaluator, eval': Evaluator, candidates: seq<GroupTarget>)
    requires forall t :: eval(t) == eval'(t)
    requires forall j :: 0 <= j < |candidates| ==> eval(candidates[j]).Filtered?
    ensures Reasons(eval, candidates) == Reasons(eval', candidates)
  {}

  lemma BindingIgnoresGrants(c: CatalogSnapshot, c': CatalogSnapshot, q: PlanRequest)
    requires c' == c.(grants := c'.grants)
    ensures ResolveBinding(c', q) == ResolveBinding(c, q)
  {}

  lemma SameEvaluationsSamePlan(x: Context, y: Context, eval: Evaluator, eval': Evaluator, candidates: seq<GroupTarget>)
    requires y == x.(grants := y.grants) && forall t :: eval(t) == eval'(t)
    ensures PlanBound(x, eval, candidates) == PlanBound(y, eval', candidates)
  {
    SameEvaluations(eval, eval', candidates);
    SameEvaluationsSameAttempt(x, y, eval, eval', candidates);
    SameEvaluationsSameReasons(eval, eval', candidates[..FirstEligible(eval, candidates)]);
  }

  /** Switching denies between self_only and deny_descendants leaves every plan, with its evidence, as it was. */
  lemma DenyModeNeverMatters(c: CatalogSnapshot, c': CatalogSnapshot, q: PlanRequest)
    requires c' == c.(grants := c'.grants) && DenyModesSwitched(c.grants, c'.grants)
    ensures Plan(c, q) == Plan(c', q)
  {
    BindingIgnoresGrants(c, c', q);
    if ResolveBinding(c, q).Ok? && Indexable(c) {
      var b := ResolveBinding(c, q).value;
      var x, y := ContextOf(c, q, b), ContextOf(c', q, b);
      forall t ensures EvaluatorOf(x)(t) == EvaluatorOf(y)(t) { DenyModeOnCandidate(x, y, t); }
      SameEvaluationsSamePlan(x, y, EvaluatorOf(x), EvaluatorOf(y), Candidates(c, b.group.id));
    }
  }

  lemma DenyModeOnCandidate(x: Context, y: Context, t: GroupTarget)
    requires y == x.(grants := y.grants) && DenyModesSwitched(x.grants, y.grants)
    ensures Evaluate(x, t) == Evaluate(y, t)
  {
    if t.targetId in x.targets && x.targets[t.targetId].endpointId in x.endpoints {
      var target := x.targets[t.targetId];
      var endpoint := x.endpoints[target.endpointId];
      DenyModeIrrelevant(x.grants, y.grants, x.q.actor,
                         PathOf(x.b.alias, x.b.policy, x.b.group, target, endpoint), endpoint, target);
    }
  }

  /** Adding a deny never makes an ineligible candidate eligible, nor changes what an eligible one leads to. */
  lemma DenyOnCandidate(x: Context, y: Context, deny: ProviderGrant, t: GroupTarget)
    requires y == x.(grants := y.grants) && Added(x.grants, y.grants, deny) && deny.effect == Deny
    ensures Evaluate(y, t).Eligible? ==> Evaluate(x, t) == Evaluate(y, t)
  {
    if Evaluate(y, t).Eligible? {
      var target := x.targets[t.targetId];
      var endpoint := x.endpoints[target.endpointId];
      DenyOnlyNarrows(x.grants, y.grants, deny, x.q.actor,
                      PathOf(x.b.alias, x.b.policy, x.b.group, target, endpoint), endpoint, target);
    }
  }

  /** Fewer eligible candidates never give a selection where there was none. */
  lemma SelectionNeedsEligible(x: Context, y: Context, eval: Evaluator, eval': Evaluator, candidates: seq<GroupTarget>)
    requires forall t :: eval'(t).Eligible? ==> eval(t).Eligible?
    ensures PlanBound(y, eval', candidates).outcome.Selected? ==> PlanBound(x, eval, candidates).outcome.Selected?
  {
    OutcomeKind(x, eval, candidates);
    OutcomeKind(y, eval', candidates);
  }

  /** Adding a deny gives no plan a selection it did not have, and leaves every error as it was. */
  lemma DenyNeverOpensRoute(c: CatalogSnapshot, c': CatalogSnapshot, deny: ProviderGrant, q: PlanRequest)
    requires c' == c.(grants := c'.grants) && Added(c.grants, c'.grants, deny) && deny.effect == Deny
    ensures Plan(c, q).Err? || Plan(c', q).Err? ==> Plan(c, q) == Plan(c', q)
    ensures Plan(c, q).Ok? && !Plan(c, q).value.outcome.Selected? ==> !Plan(c', q).value.outcome.Selected?
  {
    BindingIgnoresGrants(c, c', q);
    if Plan(c, q).Ok? {
      var b := ResolveBinding(c, q).value;
      var x, y := ContextOf(c, q, b), ContextOf(c', q, b);
      forall t ensures EvaluatorOf(y)(t).Eligible? ==> EvaluatorOf(x)(t).Eligible? { DenyOnCandidate(x, y, deny, t); }
      SelectionNeedsEligible(x, y, EvaluatorOf(x), EvaluatorOf(y), Candidates(c, b.group.id));
    }
  }

  /** Under other grants an eligible candidate stays eligible exactly if they allow its path. */
  lemma EligibleUnderGrants(x: Context, y: Context, t: GroupTarget)
    requires y == x.(grants := y.grants) && Evaluate(x, t).Eligible?
    ensures var e := Evaluate(x, t);
            var path := PathOf(x.b.alias, x.b.policy, x.b.group, e.target, e.endpoint);
            && GrantAllows(x.grants, x.q.actor, path, e.endpoint, e.target)
            && Evaluate(y, t) == if GrantAllows(y.grants, x.q.actor, path, e.endpoint, e.target) then e
                                 else Filtered(FilterReason.ProviderGrantDenied)
  {
    EligiblePasses(x, t);
  }

  /** Under the closure rule an added allow keeps a candidate eligible exactly when it does not shut its
      path out of the actor's project; hence an organization-scoped allow never costs a plan its selection. */
  lemma AllowOnCandidate(x: Context, y: Context, allow: ProviderGrant, t: GroupTarget)
    requires y == x.(grants := y.grants) && Added(x.grants, y.grants, allow) && allow.effect == Allow
    requires HasSpecGrants(x.grants, x.q.actor) && Evaluate(x, t).Eligible?
    ensures var e := Evaluate(x, t);
            Evaluate(y, t).Eligible? <==>
            !ShutsOut(y.grants, allow, x.q.actor, PathOf(x.b.alias, x.b.policy, x.b.group, e.target, e.endpoint))
    ensures GrantScopeKind(allow) == Some(Organization) ==> Evaluate(y, t) == Evaluate(x, t)
  {
    var e := Evaluate(x, t);
    EligibleUnderGrants(x, y, t);
    AllowKeepsUnlessShutOut(x.grants, y.grants, allow, x.q.actor,
                            PathOf(x.b.alias, x.b.policy, x.b.group, e.target, e.endpoint), e.endpoint, e.target);
  }

  lemma OrganizationAllowKeepsSelection(c: CatalogSnapshot, c': CatalogSnapshot, allow: ProviderGrant, q: PlanRequest)
    requires c' == c.(grants := c'.grants) && Added(c.grants, c'.grants, allow)
    requires allow.effect == Allow && GrantScopeKind(allow) == Some(Organization)
    requires HasSpecGrants(c.grants, q.actor)
    requires Plan(c, q).Ok? && Plan(c, q).value.outcome.Selected?
    ensures Plan(c', q).Ok? && Plan(c', q).value.outcome.Selected?
  {
    BindingIgnoresGrants(c, c', q);
    var b := ResolveBinding(c, q).value;
    var x, y := ContextOf(c, q, b), ContextOf(c', q, b);
    forall t ensures EvaluatorOf(x)(t).Eligible? ==> EvaluatorOf(y)(t).Eligible? {
      if Evaluate(x, t).Eligible? { AllowOnCandidate(x, y, allow, t); }
    }
    SelectionNeedsEligible(y, x, EvaluatorOf(y), EvaluatorOf(x), Candidates(c, b.group.id));
  }

  /** The first grant in closure form shuts the whole tenant out, whatever its legacy grants say, except for an
      alias that it allows with all its descendants for the actor's organization. */
  lemma FirstClosureGrantOnPlan(c: CatalogSnapshot, c': CatalogSnapshot, first: ProviderGrant, q: PlanRequest)
    requires c' == c.(grants := c'.grants) && Added(c.grants, c'.grants, first)
    requires !HasSpecGrants(c.grants, q.actor) && HasSpecGrants(c'.grants, q.actor)
    requires Plan(c', q).Ok? && Plan(c', q).value.outcome.Selected?
    ensures q.actor.organizationId.Some? && InForce(first, Allow, q.actor, Organization, q.actor.organizationId.value)
    ensures first.closureMode == IncludeDescendants
    ensures Names(first, Node(KindModelAlias, Plan(c', q).value.outcome.selection.aliasId))
  {
    SelectedRouteIsSound(c', q);
    var s, b := Plan(c', q).value.outcome.selection, ResolveBinding(c', q).value;
    var t, target :| ConnectedBy(c', q, b, s, t, target);
    FirstClosureGrant(c.grants, c'.grants, first, q.actor, PathOf(b.alias, b.policy, b.group, target, s.endpoint),
                      s.endpoint, target);
  }
}
