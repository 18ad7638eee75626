/** What every plan satisfies: sticky routing against the plain scan, validation against runtime gaps, evidence,
    and what an evaluation and a selection mean. */
module RoutingLaws {
  import opened Base
  import opened Catalog
  import opened Grants
  import opened Evidence
  import opened HotState
  import opened Validation
  import opened Planner

  // ---------- the outcome, without order ----------

  /** The kind of outcome depends only on which evaluations occur, not on their order nor on stickiness. */
  lemma OutcomeKind(x: Context, eval: Evaluator, candidates: seq<GroupTarget>)
    ensures var outcome := PlanBound(x, eval, candidates).outcome;
            && (outcome.Selected? <==> exists t | t in candidates :: eval(t).Eligible?)
            && (outcome.ProviderGrantDenied? <==>
                  && (forall t | t in candidates :: eval(t).Filtered?)
                  && (exists t | t in candidates :: eval(t) == Filtered(FilterReason.ProviderGrantDenied)))
  {
    var k := FirstEligible(eval, candidates);
    StickyReasonOccurs(x, eval, candidates);
    if k == |candidates| {
      assert candidates[..k] == candidates;
      var reasons := Reasons(eval, candidates);
      assert forall t :: t in candidates ==> eval(t).Filtered?;
      if t :| t in candidates && eval(t) == Filtered(FilterReason.ProviderGrantDenied) {
        var j :| 0 <= j < |candidates| && candidates[j] == t;
        assert reasons[j] == FilterReason.ProviderGrantDenied;
      }
    } else {
      assert candidates[k] in candidates;
    }
  }

  /** The evidence of a filtered sticky candidate is the evaluation of some candidate of the group. */
  lemma StickyReasonOccurs(x: Context, eval: Evaluator, candidates: seq<GroupTarget>)
    ensures forall r :: r in StickyReasons(TrySticky(x, eval, candidates)) ==>
            exists t | t in candidates :: eval(t) == Filtered(r)
    ensures TrySticky(x, eval, candidates).Hit? ==> exists t | t in candidates :: eval(t).Eligible?
  {
  }

  lemma {:induction false} SameEvaluations(eval: Evaluator, eval': Evaluator, candidates: seq<GroupTarget>)
    requires forall t :: t in candidates ==> eval(t) == eval'(t)
    ensures FirstEligible(eval, candidates) == FirstEligible(eval', candidates)
  {
    if candidates == [] {
    } else {
      SameEvaluations(eval, eval', candidates[1..]);
    }
  }

  // ---------- sticky routing refines the scan ----------

  ghost function WithoutAffinity(q: PlanRequest): PlanRequest { q.(affinityHash := None) }

  ghost predicate SameRoute(s: RouteSelection, t: RouteSelection)
  {
    s == t.(filteredSummary := s.filteredSummary, stickyHit := s.stickyHit, stickyMissReason := s.stickyMissReason)
  }

  /** The remembered route: an eligible candidate of the current group on the remembered endpoint. */
  ghost predicate IsStickyRoute(c: CatalogSnapshot, x: Context, s: RouteSelection)
  {
    && StickyRecordFor(x).Some?
    && var record := StickyRecordFor(x).value;
    && record.groupId == s.groupId == x.b.group.id
    && record.targetId == s.targetId
    && record.endpointId == s.endpoint.id
    && exists t | t in c.groupTargets :: t.groupId == s.groupId && t.targetId == s.targetId && LeadsTo(x, t, s)
  }

  ghost predicate LeadsTo(x: Context, t: GroupTarget, s: RouteSelection)
  {
    var e := Evaluate(x, t);
    e.Eligible? && s == SelectionOf(x, e.target, e.endpoint, s.filteredSummary, s.stickyHit, s.stickyMissReason)
  }

  /** Planning with an affinity hash against planning without one: the same error or the same kind of outcome;
      a sticky hit is the remembered route, anything else the very route of the plain scan. */
  lemma StickyRefinesScan(c: CatalogSnapshot, q: PlanRequest)
    ensures match (Plan(c, q), Plan(c, WithoutAffinity(q)))
            case (Err(e), Err(f)) => e == f
            case (Ok(plan), Ok(plain)) =>
              && (plan.outcome.Selected? <==> plain.outcome.Selected?)
              && (plan.outcome.ProviderGrantDenied? <==> plain.outcome.ProviderGrantDenied?)
              && (plan.outcome.Selected? ==>
                    if plan.outcome.selection.stickyHit
                    then IsStickyRoute(c, ContextOf(c, q, ResolveBinding(c, q).value), plan.outcome.selection)
                    else SameRoute(plan.outcome.selection, plain.outcome.selection))
            case _ => false
  {
    BindingIgnoresAffinity(c, q);
    if ResolveBinding(c, q).Ok? && Indexable(c) {
      var b := ResolveBinding(c, q).value;
      var x, y, candidates := ContextOf(c, q, b), ContextOf(c, WithoutAffinity(q), b), Candidates(c, b.group.id);
      forall t ensures EvaluatorOf(x)(t) == EvaluatorOf(y)(t) { AffinityIsNotAFilter(x, t); }
      StickyBound(x, y, EvaluatorOf(x), EvaluatorOf(y), candidates);
      if TrySticky(x, EvaluatorOf(x), candidates).Hit? { StickyHitIsSticky(c, x); }
    }
  }

  lemma BindingIgnoresAffinity(c: CatalogSnapshot, q: PlanRequest)
    ensures ResolveBinding(c, WithoutAffinity(q)) == ResolveBinding(c, q)
  {}

  lemma AffinityIsNotAFilter(x: Context, t: GroupTarget)
    ensures Evaluate(x.(q := WithoutAffinity(x.q)), t) == Evaluate(x, t)
  {}

  lemma StickyBound(x: Context, y: Context, eval: Evaluator, eval': Evaluator, candidates: seq<GroupTarget>)
    requires y == x.(q := WithoutAffinity(x.q)) && forall t :: eval(t) == eval'(t)
    ensures var plan, plain := PlanBound(x, eval, candidates), PlanBound(y, eval', candidates);
            && (plan.outcome.Selected? <==> plain.outcome.Selected?)
            && (plan.outcome.ProviderGrantDenied? <==> plain.outcome.ProviderGrantDenied?)
            && (plan.outcome.Selected? ==>
                  && (plan.outcome.selection.stickyHit <==> TrySticky(x, eval, candidates).Hit?)
                  && (!plan.outcome.selection.stickyHit ==> SameRoute(plan.outcome.selection, plain.outcome.selection)))
  {
    SameEvaluations(eval, eval', candidates);
    OutcomeKind(x, eval, candidates);
    OutcomeKind(y, eval', candidates);
  }

  lemma StickyHitIsSticky(c: CatalogSnapshot, x: Context)
    requires x == ContextOf(c, x.q, x.b) && TrySticky(x, EvaluatorOf(x), Candidates(c, x.b.group.id)).Hit?
    ensures IsStickyRoute(c, x, PlanBound(x, EvaluatorOf(x), Candidates(c, x.b.group.id)).outcome.selection)
  {
    var eval, candidates := EvaluatorOf(x), Candidates(c, x.b.group.id);
    var record := StickyRecordFor(x).value;
    var t := StickyCandidate(candidates, record.targetId).value;
    EligibleTarget(c, x, t);
    assert eval(t) == Evaluate(x, t);
    var s := PlanBound(x, eval, candidates).outcome.selection;
    assert LeadsTo(x, t, s) && t in c.groupTargets;
  }

  /** An eligible candidate leads to the target record of its own id. */
  lemma EligibleTarget(c: CatalogSnapshot, x: Context, t: GroupTarget)
    requires x == ContextOf(c, x.q, x.b) && Evaluate(x, t).Eligible?
    ensures Evaluate(x, t).target.id == t.targetId
  {
    assert TargetId(x.targets[t.targetId]) == t.targetId;
  }

  // ---------- validation rules out runtime gaps ----------

  /** Reasons that only a broken catalog can produce. */
  predicate IsGap(r: FilterReason)
  {
    r.TargetMissing? || r.ProtocolMismatch? || r.EndpointMissing? || r.EndpointProtocolMismatch?
    || r.CredentialMissing? || r.CredentialUnusable?
  }

  lemma BindingMembers(c: CatalogSnapshot, q: PlanRequest)
    requires ResolveBinding(c, q).Ok?
    ensures var b := ResolveBinding(c, q).value;
            && b.alias in c.aliases && b.policy in c.policies && b.group in c.groups
            && b.alias.protocolFamily == q.protocolFamily
            && b.policy.id == b.alias.policyId && b.group.id == b.policy.groupId
            && b.alias.status.Active? && b.policy.status.Active? && b.group.status.Active?
  {
    ResolvedAliasReaches(c.aliases, q.actor, q.aliasName);
  }

  lemma ResolvedAliasReaches(aliases: seq<ModelAlias>, actor: Actor, name: string)
    requires ResolveAlias(aliases, actor, name).Ok?
    ensures ResolveAlias(aliases, actor, name).value in aliases
            && Reaches(ResolveAlias(aliases, actor, name).value, actor, name)
  {
    var scoped := SortBy(ScopedAliases(aliases, actor, name), ScoreDescending);
    assert scoped[0] in scoped;
  }

  lemma NoGapForServedTarget(x: Context, t: GroupTarget)
    requires t.targetId in x.targets && x.targets[t.targetId].protocolFamily == x.q.protocolFamily
    requires CheckTarget(x.targets[t.targetId], x.endpoints, x.credentials)
    ensures Evaluate(x, t).Filtered? ==> !IsGap(Evaluate(x, t).reason)
  {}

  lemma ServedTarget(c: CatalogSnapshot, urlOk: string -> bool, b: Binding, t: GroupTarget)
    requires ValidCatalog(c, urlOk)
    requires b.alias in c.aliases && b.policy in c.policies && b.policy.id == b.alias.policyId
             && b.group.id == b.policy.groupId
    requires t in c.groupTargets && t.groupId == b.group.id
    ensures var targets := ById(c.targets, TargetId);
            && t.targetId in targets && targets[t.targetId].protocolFamily == b.alias.protocolFamily
            && CheckTarget(targets[t.targetId], ById(c.endpoints, EndpointId), ById(c.credentials, CredentialId))
  {
    assert ValidAlias(c, b.alias);
    var p :| p in c.policies && p.id == b.alias.policyId && GroupServes(c, p.groupId, b.alias.protocolFamily);
    ByIdMembership(c.policies, PolicyId, p.id);
    assert p == b.policy;
    var target :| target in c.targets && target.id == t.targetId && target.protocolFamily == b.alias.protocolFamily;
    ByIdMembership(c.targets, TargetId, target.id);
    TargetCheck(c, target);
  }

  lemma NoGapWhenValid(c: CatalogSnapshot, urlOk: string -> bool, q: PlanRequest, t: GroupTarget)
    requires ValidCatalog(c, urlOk) && ResolveBinding(c, q).Ok?
    requires t in c.groupTargets && t.groupId == ResolveBinding(c, q).value.group.id
    ensures var e := Evaluate(ContextOf(c, q, ResolveBinding(c, q).value), t);
            e.Filtered? ==> !IsGap(e.reason)
  {
    BindingMembers(c, q);
    ServedTarget(c, urlOk, ResolveBinding(c, q).value, t);
    NoGapForServedTarget(ContextOf(c, q, ResolveBinding(c, q).value), t);
  }

  /** For a valid catalog: no gap is ever evidence, an unready answer means an inactive policy or group,
      and a plan without a selection says why. */
  lemma ValidationRulesOutGaps(c: CatalogSnapshot, urlOk: string -> bool, q: PlanRequest)
    requires ValidCatalog(c, urlOk)
    ensures Plan(c, q).Ok? ==> forall e :: e in Plan(c, q).value.filteredSummary ==> !IsGap(e.reason)
    ensures Plan(c, q).Ok? && !Plan(c, q).value.outcome.Selected? ==> Plan(c, q).value.filteredSummary != []
    ensures Plan(c, q) == Err(NotReady) <==>
            && ResolveAlias(c.aliases, q.actor, q.aliasName).Ok?
            && var alias := ResolveAlias(c.aliases, q.actor, q.aliasName).value;
            && alias.protocolFamily == q.protocolFamily && alias.status.Active?
            && exists p, g | p in c.policies && g in c.groups ::
                 p.id == alias.policyId && g.id == p.groupId && !(p.status.Active? && g.status.Active?)
    ensures Plan(c, q) != Err(BadRequest(InvalidCatalog))
  {
    ReadinessOfValid(c, urlOk, q);
    if Plan(c, q).Ok? {
      var b := ResolveBinding(c, q).value;
      var x := ContextOf(c, q, b);
      forall e | e in Plan(c, q).value.filteredSummary ensures !IsGap(e.reason) {
        var t := SummarySource(x, EvaluatorOf(x), Candidates(c, b.group.id), e);
        assert EvaluatorOf(x)(t) == Evaluate(x, t);
        NoGapWhenValid(c, urlOk, q, t);
      }
      if !Plan(c, q).value.outcome.Selected? {
        CandidatesExist(c, urlOk, q);
        SilentPlansSelect(x, EvaluatorOf(x), Candidates(c, b.group.id));
      }
    }
  }

  lemma CandidatesExist(c: CatalogSnapshot, urlOk: string -> bool, q: PlanRequest)
    requires ValidCatalog(c, urlOk) && ResolveBinding(c, q).Ok?
    ensures Candidates(c, ResolveBinding(c, q).value.group.id) != []
  {
    BindingMembers(c, q);
    var b := ResolveBinding(c, q).value;
    assert ValidPolicy(c, b.policy);
    var t :| t in c.groupTargets && t.groupId == b.group.id;
    assert t in Candidates(c, b.group.id);
  }

  /** With candidates and no selection, something was filtered. */
  lemma SilentPlansSelect(x: Context, eval: Evaluator, candidates: seq<GroupTarget>)
    requires candidates != [] && !PlanBound(x, eval, candidates).outcome.Selected?
    ensures PlanBound(x, eval, candidates).filteredSummary != []
  {
    TallyCounts(PlanReasons(x, eval, candidates));
  }

  lemma SummarySource(x: Context, eval: Evaluator, candidates: seq<GroupTarget>, e: FilterSummary)
    returns (t: GroupTarget)
    requires e in PlanBound(x, eval, candidates).filteredSummary
    ensures t in candidates && eval(t) == Filtered(e.reason)
  {
    TallyReasons(PlanReasons(x, eval, candidates), e);
    t := ReasonSource(x, eval, candidates, e.reason);
  }

  lemma ReasonSource(x: Context, eval: Evaluator, candidates: seq<GroupTarget>, r: FilterReason)
    returns (t: GroupTarget)
    requires r in PlanReasons(x, eval, candidates)
    ensures t in candidates && eval(t) == Filtered(r)
  {
    if r in StickyReasons(TrySticky(x, eval, candidates)) {
      StickyReasonOccurs(x, eval, candidates);
      t :| t in candidates && eval(t) == Filtered(r);
    } else {
      var k := FirstEligible(eval, candidates);
      var j :| 0 <= j < k && Reasons(eval, candidates[..k])[j] == r;
      t := candidates[j];
    }
  }

  lemma ReadinessOfValid(c: CatalogSnapshot, urlOk: string -> bool, q: PlanRequest)
    requires ValidCatalog(c, urlOk)
    ensures ResolveAlias(c.aliases, q.actor, q.aliasName).Err? ==>
              ResolveAlias(c.aliases, q.actor, q.aliasName).error != NotReady
    ensures ResolveBinding(c, q) == Err(NotReady) <==>
            && ResolveAlias(c.aliases, q.actor, q.aliasName).Ok?
            && var alias := ResolveAlias(c.aliases, q.actor, q.aliasName).value;
            && alias.protocolFamily == q.protocolFamily && alias.status.Active?
            && exists p, g | p in c.policies && g in c.groups ::
                 p.id == alias.policyId && g.id == p.groupId && !(p.status.Active? && g.status.Active?)
  {
    if ResolveAlias(c.aliases, q.actor, q.aliasName).Ok? {
      ResolvedAliasReaches(c.aliases, q.actor, q.aliasName);
      var alias := ResolveAlias(c.aliases, q.actor, q.aliasName).value;
      assert ValidAlias(c, alias);
      var p := FindById(c.policies, PolicyId, alias.policyId);
      ByIdMembership(c.policies, PolicyId, alias.policyId);
      assert ValidPolicy(c, p.value);
      var g := FindById(c.groups, GroupId, p.value.groupId);
      ByIdMembership(c.groups, GroupId, p.value.groupId);
      assert p.value in c.policies && g.value in c.groups;
    }
  }

  // ---------- evidence is conserved ----------

  /** Every filtered candidate is counted once, under its reason; a filtered sticky candidate once more. */
  ghost predicate Conserved(plan: RoutePlan, x: Context, eval: Evaluator, candidates: seq<GroupTarget>)
  {
    var attempt := TrySticky(x, eval, candidates);
    && WellFormed(plan.filteredSummary)
    && Total(plan.filteredSummary) ==
         (if attempt.Hit? then 0
          else FirstEligible(eval, candidates) + if attempt.Miss? && attempt.why.CandidateFiltered? then 1 else 0)
    && (forall r :: CountOf(plan.filteredSummary, r) ==
          if attempt.Hit? then 0
          else multiset(Reasons(eval, candidates[..FirstEligible(eval, candidates)]))[r]
               + if attempt == Miss(CandidateFiltered(r)) then 1 else 0)
    && (plan.outcome.Selected? ==> plan.outcome.selection.filteredSummary == plan.filteredSummary)
    && (plan.outcome.ProviderGrantDenied? <==>
          !plan.outcome.Selected? && CountOf(plan.filteredSummary, FilterReason.ProviderGrantDenied) > 0)
  }

  /** What the reasons of a plan are, as a multiset and in number. */
  lemma PlanReasonsCount(x: Context, eval: Evaluator, candidates: seq<GroupTarget>)
    ensures var attempt, k := TrySticky(x, eval, candidates), FirstEligible(eval, candidates);
            && |PlanReasons(x, eval, candidates)| == k + |StickyReasons(attempt)|
            && forall r :: multiset(PlanReasons(x, eval, candidates))[r] ==
                 multiset(Reasons(eval, candidates[..k]))[r] + if attempt == Miss(CandidateFiltered(r)) then 1 else 0
  {
  }

  lemma MissConserved(x: Context, eval: Evaluator, candidates: seq<GroupTarget>)
    requires !TrySticky(x, eval, candidates).Hit?
    ensures Conserved(PlanBound(x, eval, candidates), x, eval, candidates)
  {
    TallyCounts(PlanReasons(x, eval, candidates));
    PlanReasonsCount(x, eval, candidates);
  }

  lemma BoundConserved(x: Context, eval: Evaluator, candidates: seq<GroupTarget>)
    ensures Conserved(PlanBound(x, eval, candidates), x, eval, candidates)
  {
    if !TrySticky(x, eval, candidates).Hit? { MissConserved(x, eval, candidates); }
  }

  lemma EvidenceConserved(c: CatalogSnapshot, q: PlanRequest)
    requires Plan(c, q).Ok?
    ensures var x := ContextOf(c, q, ResolveBinding(c, q).value);
            Conserved(Plan(c, q).value, x, EvaluatorOf(x), Candidates(c, x.b.group.id))
  {
    var x := ContextOf(c, q, ResolveBinding(c, q).value);
    BoundConserved(x, EvaluatorOf(x), Candidates(c, x.b.group.id));
  }

  // ---------- what an evaluation and a selection mean ----------

  ghost predicate Fails(x: Context, t: GroupTarget, r: FilterReason)
  {
    if r.GroupTargetInactive? then !t.status.Active?
    else if r.TargetMissing? then t.targetId !in x.targets
    else t.targetId in x.targets && TargetFails(x, x.targets[t.targetId], r)
  }

  ghost predicate TargetFails(x: Context, target: ModelTarget, r: FilterReason)
  {
    match r
    case TargetInactive => !target.status.Active?
    case ProtocolMismatch => target.protocolFamily != x.q.protocolFamily
    case StreamingUnsupported => x.q.streaming && !target.supportsStreaming
    case EndpointMissing => target.endpointId !in x.endpoints
    case CredentialMissing => target.credentialId.Some? && target.credentialId.value !in x.credentials
    case CredentialUnusable =>
      target.credentialId.Some? && target.credentialId.value in x.credentials
      && x.credentials[target.credentialId.value].status !in {Usable, Rotating}
    case _ => target.endpointId in x.endpoints && EndpointFails(x, target, x.endpoints[target.endpointId], r)
  }

  ghost predicate EndpointFails(x: Context, target: ModelTarget, endpoint: ProviderEndpoint, r: FilterReason)
  {
    var health := x.q.hotState.health(endpoint.tenantId, endpoint.id, x.q.configVersion, x.q.now);
    match r
    case EndpointInactive => !endpoint.status.Active?
    case EndpointProtocolMismatch => x.q.protocolFamily !in endpoint.protocolFamilies
    case EndpointDrained => x.q.hotState.isDrained(endpoint.tenantId, endpoint.id, x.q.configVersion, x.q.now)
    case EndpointHealthBlocked => health == Blocked
    case EndpointUnhealthy => health == Unhealthy
    case ProviderGrantDenied =>
      !GrantAllows(x.grants, x.q.actor, PathOf(x.b.alias, x.b.policy, x.b.group, target, endpoint), endpoint, target)
    case _ => false
  }

  /** The place of a filter in the order of evaluation. */
  function Rank(r: FilterReason): nat
  {
    match r
    case GroupTargetInactive => 0 case TargetMissing => 1 case TargetInactive => 2 case ProtocolMismatch => 3
    case StreamingUnsupported => 4 case EndpointMissing => 5 case EndpointInactive => 6
    case EndpointProtocolMismatch => 7 case EndpointDrained => 8 case EndpointHealthBlocked => 9
    case EndpointUnhealthy => 10 case CredentialMissing => 11 case CredentialUnusable => 12
    case ProviderGrantDenied => 13
  }

  lemma FirstFailingEndpointFilter(x: Context, target: ModelTarget, endpoint: ProviderEndpoint, r: FilterReason)
    requires target.endpointId in x.endpoints && endpoint == x.endpoints[target.endpointId]
    ensures var e := EvaluateEndpoint(x, target, endpoint);
            && (e.Eligible? ==> Rank(r) >= 6 ==> !TargetFails(x, target, r))
            && (e.Filtered? ==> Rank(e.reason) >= 6 && TargetFails(x, target, e.reason)
                                && (6 <= Rank(r) < Rank(e.reason) ==> !TargetFails(x, target, r)))
  {}

  /** A candidate is eligible exactly when no filter fails, and filtered with the first filter that does. */
  lemma FirstFailingFilter(x: Context, t: GroupTarget, r: FilterReason)
    ensures Evaluate(x, t).Eligible? ==> !Fails(x, t, r)
    ensures Evaluate(x, t).Filtered? ==> Fails(x, t, Evaluate(x, t).reason)
    ensures Evaluate(x, t).Filtered? && Rank(r) < Rank(Evaluate(x, t).reason) ==> !Fails(x, t, r)
  {
    if t.targetId in x.targets && x.targets[t.targetId].endpointId in x.endpoints {
      var target := x.targets[t.targetId];
      FirstFailingEndpointFilter(x, target, x.endpoints[target.endpointId], r);
    }
  }

  /** Every entry of a plan's evidence is true of some candidate of the bound group: that filter fails for it and
      no earlier one does. */
  lemma EvidenceIsTrue(c: CatalogSnapshot, q: PlanRequest, e: FilterSummary) returns (t: GroupTarget)
    requires Plan(c, q).Ok? && e in Plan(c, q).value.filteredSummary
    ensures var x := ContextOf(c, q, ResolveBinding(c, q).value);
            && t in c.groupTargets && t.groupId == x.b.group.id && Fails(x, t, e.reason)
            && forall r :: Rank(r) < Rank(e.reason) ==> !Fails(x, t, r)
  {
    var x := ContextOf(c, q, ResolveBinding(c, q).value);
    t := SummarySource(x, EvaluatorOf(x), Candidates(c, x.b.group.id), e);
    assert EvaluatorOf(x)(t) == Evaluate(x, t);
    forall r ensures Rank(r) < Rank(e.reason) ==> !Fails(x, t, r) { FirstFailingFilter(x, t, r); }
    FirstFailingFilter(x, t, e.reason);
  }

  /** An entry of the bound group leads to a selection over an active target and endpoint that can serve the
      request, with a usable credential, and that the grants allow. */
  ghost predicate ConnectedBy(c: CatalogSnapshot, q: PlanRequest, b: Binding, s: RouteSelection, t: GroupTarget,
                              target: ModelTarget)
  {
    && t in c.groupTargets && t.groupId == b.group.id && t.status.Active?
    && target in c.targets && target.id == t.targetId == s.targetId && target.status.Active?
    && s.endpoint in c.endpoints && s.endpoint.id == target.endpointId && s.endpoint.status.Active?
    && ServesRequest(q, target, s.endpoint)
    && (target.credentialId.Some? ==>
          exists k | k in c.credentials :: k.id == target.credentialId.value && k.status in {Usable, Rotating})
    && s.credentialId == target.credentialId && s.upstreamModelId == target.upstreamModelId
    && s.pricingSkuId == target.pricingSkuId
    && GrantAllows(c.grants, q.actor, PathOf(b.alias, b.policy, b.group, target, s.endpoint), s.endpoint, target)
  }

  /** The target and endpoint can take the request: protocol, streaming, drain and health. */
  ghost predicate ServesRequest(q: PlanRequest, target: ModelTarget, endpoint: ProviderEndpoint)
  {
    && target.protocolFamily == q.protocolFamily && q.protocolFamily in endpoint.protocolFamilies
    && (q.streaming ==> target.supportsStreaming)
    && !q.hotState.isDrained(endpoint.tenantId, endpoint.id, q.configVersion, q.now)
    && q.hotState.health(endpoint.tenantId, endpoint.id, q.configVersion, q.now) !in {Blocked, Unhealthy}
  }

  /** What passing all filters says about a candidate's target and endpoint. */
  lemma EligiblePasses(x: Context, t: GroupTarget)
    requires Evaluate(x, t).Eligible?
    ensures var e := Evaluate(x, t);
            && t.status.Active? && t.targetId in x.targets && e.target == x.targets[t.targetId]
            && e.target.endpointId in x.endpoints && e.endpoint == x.endpoints[e.target.endpointId]
            && e.target.status.Active? && e.endpoint.status.Active? && ServesRequest(x.q, e.target, e.endpoint)
            && (e.target.credentialId.Some? ==>
                  e.target.credentialId.value in x.credentials
                  && x.credentials[e.target.credentialId.value].status.IsUsable())
            && GrantAllows(x.grants, x.q.actor, PathOf(x.b.alias, x.b.policy, x.b.group, e.target, e.endpoint),
                           e.endpoint, e.target)
  {
  }

  lemma UsableCredential(c: CatalogSnapshot, x: Context, t: GroupTarget)
    requires x == ContextOf(c, x.q, x.b) && Evaluate(x, t).Eligible? && Evaluate(x, t).target.credentialId.Some?
    ensures exists k | k in c.credentials ::
              k.id == Evaluate(x, t).target.credentialId.value && k.status in {Usable, Rotating}
  {
    EligiblePasses(x, t);
    var id := Evaluate(x, t).target.credentialId.value;
    assert CredentialId(x.credentials[id]) == id && x.credentials[id] in c.credentials;
  }

  lemma EligibleRecords(c: CatalogSnapshot, x: Context, t: GroupTarget)
    requires x == ContextOf(c, x.q, x.b) && Evaluate(x, t).Eligible?
    ensures var e := Evaluate(x, t);
            && e.target in c.targets && e.target.id == t.targetId
            && e.endpoint in c.endpoints && e.endpoint.id == e.target.endpointId
  {
    EligiblePasses(x, t);
    var e := Evaluate(x, t);
    assert TargetId(x.targets[t.targetId]) == t.targetId;
    assert EndpointId(x.endpoints[e.target.endpointId]) == e.target.endpointId;
  }

  lemma EligibleConnects(c: CatalogSnapshot, x: Context, s: RouteSelection, t: GroupTarget)
    requires x == ContextOf(c, x.q, x.b) && t in Candidates(c, x.b.group.id) && LeadsTo(x, t, s)
    ensures ConnectedBy(c, x.q, x.b, s, t, Evaluate(x, t).target)
  {
    EligibleRecords(c, x, t);
    EligiblePasses(x, t);
    if Evaluate(x, t).target.credentialId.Some? { UsableCredential(c, x, t); }
  }

  /** A selected route is a connected path of active catalog records, whatever led to it: the alias the actor
      asked for, its policy and group, an entry of that group, its target and endpoint, and the grants allow it. */
  lemma SelectedRouteIsSound(c: CatalogSnapshot, q: PlanRequest)
    requires Plan(c, q).Ok? && Plan(c, q).value.outcome.Selected?
    ensures var s := Plan(c, q).value.outcome.selection;
            var b := ResolveBinding(c, q).value;
            && b.alias in c.aliases && Reaches(b.alias, q.actor, q.aliasName) && b.alias.status.Active?
            && b.policy in c.policies && b.policy.id == b.alias.policyId && b.policy.status.Active?
            && b.group in c.groups && b.group.id == b.policy.groupId && b.group.status.Active?
            && s.aliasId == b.alias.id && s.aliasName == q.aliasName && s.policyId == b.policy.id
            && s.groupId == b.group.id
            && s.stickyTtlSeconds == b.policy.stickyTtlSeconds
            && exists t, target :: ConnectedBy(c, q, b, s, t, target)
  {
    BindingMembers(c, q);
    ResolvedAliasReaches(c.aliases, q.actor, q.aliasName);
    var x := ContextOf(c, q, ResolveBinding(c, q).value);
    var t := SelectedFrom(x, EvaluatorOf(x), Candidates(c, x.b.group.id));
    assert EvaluatorOf(x)(t) == Evaluate(x, t);
    EligibleConnects(c, x, Plan(c, q).value.outcome.selection, t);
  }

  lemma SelectedFrom(x: Context, eval: Evaluator, candidates: seq<GroupTarget>) returns (t: GroupTarget)
    requires PlanBound(x, eval, candidates).outcome.Selected?
    ensures t in candidates && eval(t).Eligible?
    ensures x.q.affinityHash.None? ==>
              FirstEligible(eval, candidates) < |candidates| && t == candidates[FirstEligible(eval, candidates)]
    ensures var s := PlanBound(x, eval, candidates).outcome.selection;
            s == SelectionOf(x, eval(t).target, eval(t).endpoint, s.filteredSummary, s.stickyHit, s.stickyMissReason)
  {
    if TrySticky(x, eval, candidates).Hit? {
      t := StickyCandidate(candidates, StickyRecordFor(x).value.targetId).value;
    } else {
      t := candidates[FirstEligible(eval, candidates)];
    }
  }
}
