/** The scan picks a least candidate, and the order of the catalog's lists does not matter. */
module RoutingOrder {
  import opened Base
  import opened Catalog
  import opened Grants
  import opened Evidence
  import opened Validation
  import opened Planner
  import opened RoutingLaws

  lemma CandidateOrder()
    ensures TotalPreorder(CandidateLeq)
  {
    forall a, b ensures CandidateLeq(a, b) || CandidateLeq(b, a) { LeqTotal(a.targetId, b.targetId); }
    forall a, b, c | CandidateLeq(a, b) && CandidateLeq(b, c) ensures CandidateLeq(a, c) {
      if Leq(a.targetId, b.targetId) && Leq(b.targetId, c.targetId) {
        LeqTransitive(a.targetId, b.targetId, c.targetId);
      }
    }
  }

  /** The scan's choice: eligible, and among the eligible of lowest priority number, then of greatest weight,
      then of least target id. */
  ghost predicate LeastEligible(eval: Evaluator, candidates: seq<GroupTarget>, t: GroupTarget)
  {
    && t in candidates && eval(t).Eligible?
    && forall u :: u in candidates && eval(u).Eligible? ==>
         && t.priority <= u.priority
         && (t.priority == u.priority ==> t.weight >= u.weight)
         && (t.priority == u.priority && t.weight == u.weight ==> Leq(t.targetId, u.targetId))
  }

  lemma CandidatesSorted(c: CatalogSnapshot, groupId: string)
    ensures SortedBy(Candidates(c, groupId), CandidateLeq)
  {
    CandidateOrder();
    SortBySorted(TargetsOf(c.groupTargets, groupId), CandidateLeq);
  }

  lemma ScanIsMinimal(eval: Evaluator, candidates: seq<GroupTarget>)
    requires SortedBy(candidates, CandidateLeq)
    ensures var k := FirstEligible(eval, candidates);
            k < |candidates| ==> LeastEligible(eval, candidates, candidates[k])
  {
    var k := FirstEligible(eval, candidates);
    forall u | u in candidates && eval(u).Eligible? ensures k < |candidates| && CandidateLeq(candidates[k], u) {
      var j :| 0 <= j < |candidates| && candidates[j] == u;
      LeqTotal(u.targetId, u.targetId);
    }
  }

  /** Without an affinity hash, the selected route is that of a least eligible candidate. */
  lemma PlainPlanIsMinimal(c: CatalogSnapshot, q: PlanRequest)
    requires q.affinityHash.None? && Plan(c, q).Ok? && Plan(c, q).value.outcome.Selected?
    ensures var x := ContextOf(c, q, ResolveBinding(c, q).value);
            exists t :: LeastEligible(EvaluatorOf(x), Candidates(c, x.b.group.id), t)
                        && LeadsTo(x, t, Plan(c, q).value.outcome.selection)
  {
    var x := ContextOf(c, q, ResolveBinding(c, q).value);
    var eval, candidates := EvaluatorOf(x), Candidates(c, x.b.group.id);
    CandidatesSorted(c, x.b.group.id);
    ScanIsMinimal(eval, candidates);
    var t := SelectedFrom(x, eval, candidates);
    assert eval(t) == Evaluate(x, t);
    assert LeastEligible(eval, candidates, t) && LeadsTo(x, t, Plan(c, q).value.outcome.selection);
  }

  // ---------- order independence ----------

  ghost predicate Shuffled(c: CatalogSnapshot, d: CatalogSnapshot)
  {
    && Permuted(c.endpoints, d.endpoints) && Permuted(c.credentials, d.credentials)
    && Permuted(c.targets, d.targets) && Permuted(c.aliases, d.aliases)
    && Permuted(c.groups, d.groups) && Permuted(c.groupTargets, d.groupTargets)
    && Permuted(c.policies, d.policies) && Permuted(c.grants, d.grants)
  }

  /** `a` beats every other alias the actor reaches under that name. */
  ghost predicate BestAlias(aliases: seq<ModelAlias>, actor: Actor, name: string, a: ModelAlias)
  {
    && a in aliases && Reaches(a, actor, name)
    && forall b :: b in aliases && Reaches(b, actor, name) && b != a ==>
         AliasScopeScore(b, actor).value < AliasScopeScore(a, actor).value
  }

  /** The aliases that reach the actor are the ones that are scored. */
  lemma ReachingIsScored(aliases: seq<ModelAlias>, actor: Actor, name: string, b: ModelAlias)
    requires b in aliases && Reaches(b, actor, name)
    ensures (AliasScopeScore(b, actor).value, b) in SortBy(ScopedAliases(aliases, actor, name), ScoreDescending)
  {
  }

  lemma ResolvedIsBest(aliases: seq<ModelAlias>, actor: Actor, name: string)
    requires UniqueBy(aliases, AliasId) && ResolveAlias(aliases, actor, name).Ok?
    ensures BestAlias(aliases, actor, name, ResolveAlias(aliases, actor, name).value)
  {
    var scoped := SortBy(ScopedAliases(aliases, actor, name), ScoreDescending);
    var a := scoped[0].1;
    ScopedHead(aliases, actor, name);
    assert scoped[0] in scoped;
    forall b | b in aliases && Reaches(b, actor, name) && b != a
      ensures AliasScopeScore(b, actor).value < AliasScopeScore(a, actor).value
    {
      ReachingIsScored(aliases, actor, name, b);
    }
  }

  lemma AmbiguousHasNoBest(aliases: seq<ModelAlias>, actor: Actor, name: string, a: ModelAlias)
    requires UniqueBy(aliases, AliasId) && ResolveAlias(aliases, actor, name) == Err(BadRequest(AmbiguousAlias))
    ensures !BestAlias(aliases, actor, name, a)
  {
    var scoped := SortBy(ScopedAliases(aliases, actor, name), ScoreDescending);
    ScopedHead(aliases, actor, name);
    var x :| x in scoped[1..] && x.0 == scoped[0].0;
    assert x in scoped && scoped[0] in scoped && x != scoped[0];
    if BestAlias(aliases, actor, name, a) { ReachingIsScored(aliases, actor, name, a); }
  }

  lemma NotFoundMeansNone(aliases: seq<ModelAlias>, actor: Actor, name: string)
    ensures ResolveAlias(aliases, actor, name) == Err(NotFound(name)) <==>
            forall a :: a in aliases ==> !Reaches(a, actor, name)
  {
    var scoped := SortBy(ScopedAliases(aliases, actor, name), ScoreDescending);
    if a :| a in aliases && Reaches(a, actor, name) { ReachingIsScored(aliases, actor, name, a); }
    if scoped != [] { assert scoped[0] in scoped; }
  }

  /** Alias resolution, without order: the one best alias, or why there is none. */
  lemma ResolveAliasMeans(aliases: seq<ModelAlias>, actor: Actor, name: string)
    requires UniqueBy(aliases, AliasId)
    ensures match ResolveAlias(aliases, actor, name)
            case Ok(a) => BestAlias(aliases, actor, name, a)
            case Err(e) =>
              if forall a :: a in aliases ==> !Reaches(a, actor, name) then e == NotFound(name)
              else e == BadRequest(AmbiguousAlias) && forall a :: !BestAlias(aliases, actor, name, a)
  {
    NotFoundMeansNone(aliases, actor, name);
    if ResolveAlias(aliases, actor, name).Ok? {
      ResolvedIsBest(aliases, actor, name);
    } else if ResolveAlias(aliases, actor, name) == Err(BadRequest(AmbiguousAlias)) {
      forall a ensures !BestAlias(aliases, actor, name, a) { AmbiguousHasNoBest(aliases, actor, name, a); }
    }
  }

  lemma ScopedHead(aliases: seq<ModelAlias>, actor: Actor, name: string)
    requires UniqueBy(aliases, AliasId)
    ensures var scoped := SortBy(ScopedAliases(aliases, actor, name), ScoreDescending);
            scoped != [] ==> forall x :: (x in scoped[1..] <==> x in scoped && x != scoped[0])
                                         && (x in scoped ==> x.0 <= scoped[0].0)
  {
    var list := ScopedAliases(aliases, actor, name);
    var scoped := SortBy(list, ScoreDescending);
    ScopedOnce(aliases, actor, name);
    SortBySorted(list, ScoreDescending);
    if scoped != [] { HeadOnce(scoped); }
  }

  lemma HeadOnce<T(!new)>(s: seq<T>)
    requires s != [] && forall x :: multiset(s)[x] <= 1
    ensures forall x :: x in s[1..] <==> x in s && x != s[0]
  {
    assert s == [s[0]] + s[1..];
    assert multiset(s) == multiset{s[0]} + multiset(s[1..]);
    assert multiset(s)[s[0]] == 1 + multiset(s[1..])[s[0]];
    assert s[0] !in multiset(s[1..]);
  }

  /** A wider alias of the same name: no project where the other has one, or no organization either. */
  ghost predicate Wider(a: ModelAlias, b: ModelAlias)
  {
    || (a.projectId.None? && b.projectId.Some?)
    || (a.projectId.None? && b.projectId.None? && a.organizationId.None? && b.organizationId.Some?)
  }

  /** An alias reaches an actor of its tenant by name when every boundary it names is the actor's; the resolved
      alias is one that no other reaching alias is narrower than. */
  lemma NarrowestAliasWins(aliases: seq<ModelAlias>, actor: Actor, name: string, a: ModelAlias, b: ModelAlias)
    requires UniqueBy(aliases, AliasId) && ResolveAlias(aliases, actor, name) == Ok(a)
    requires b in aliases && Reaches(b, actor, name)
    ensures b.tenantId == actor.tenantId && b.name == name
    ensures b.projectId.Some? ==> b.projectId == actor.projectId && b.organizationId == actor.organizationId
    ensures b.organizationId.Some? ==> b.organizationId == actor.organizationId
    ensures !Wider(a, b) && (b != a ==> Wider(b, a))
  {
    ResolveAliasMeans(aliases, actor, name);
  }

  lemma {:induction false} ScopedOnce(aliases: seq<ModelAlias>, actor: Actor, name: string)
    requires UniqueBy(aliases, AliasId)
    ensures forall x :: multiset(ScopedAliases(aliases, actor, name))[x] <= 1
  {
    if aliases == [] {
    } else {
      var rest := aliases[1..];
      ScopedOnce(rest, actor, name);
      if Reaches(aliases[0], actor, name) {
        var head, more := (AliasScopeScore(aliases[0], actor).value, aliases[0]), ScopedAliases(rest, actor, name);
        forall j | 0 <= j < |rest| ensures rest[j] != aliases[0] {
          assert AliasId(aliases[0]) != AliasId(aliases[j + 1]);
        }
        assert head !in more;
        assert multiset([head] + more) == multiset{head} + multiset(more);
      }
    }
  }

  lemma ResolveAliasShuffled(s: seq<ModelAlias>, t: seq<ModelAlias>, actor: Actor, name: string)
    requires UniqueBy(s, AliasId) && UniqueBy(t, AliasId) && Permuted(s, t)
    ensures ResolveAlias(s, actor, name) == ResolveAlias(t, actor, name)
  {
    PermutedSameElements(s, t);
    ResolveAliasMeans(s, actor, name);
    ResolveAliasMeans(t, actor, name);
    forall a ensures BestAlias(s, actor, name, a) <==> BestAlias(t, actor, name, a) {}
  }

  lemma FindShuffled<T(!new)>(s: seq<T>, t: seq<T>, key: T -> string, id: string)
    requires UniqueBy(s, key) && UniqueBy(t, key) && Permuted(s, t)
    ensures FindById(s, key, id) == FindById(t, key, id)
  {
    PermutedSameElements(s, t);
    ByIdMembership(s, key, id);
  }

  lemma BindingShuffled(c: CatalogSnapshot, d: CatalogSnapshot, q: PlanRequest)
    requires UniqueIds(c) && UniqueIds(d) && Shuffled(c, d)
    ensures ResolveBinding(c, q) == ResolveBinding(d, q)
  {
    ResolveAliasShuffled(c.aliases, d.aliases, q.actor, q.aliasName);
    if ResolveAlias(c.aliases, q.actor, q.aliasName).Ok? {
      var alias := ResolveAlias(c.aliases, q.actor, q.aliasName).value;
      FindShuffled(c.policies, d.policies, PolicyId, alias.policyId);
      var policy := FindById(c.policies, PolicyId, alias.policyId);
      if policy.Some? { FindShuffled(c.groups, d.groups, GroupId, policy.value.groupId); }
    }
  }

  lemma EvaluateShuffled(x: Context, y: Context, t: GroupTarget)
    requires y == x.(grants := y.grants) && Permuted(x.grants, y.grants)
    ensures Evaluate(x, t) == Evaluate(y, t)
  {
    PermutedSameElements(x.grants, y.grants);
    if t.targetId in x.targets && x.targets[t.targetId].endpointId in x.endpoints {
      var target := x.targets[t.targetId];
      var endpoint := x.endpoints[target.endpointId];
      GrantsShuffled(x.grants, y.grants, x.q.actor,
                     PathOf(x.b.alias, x.b.policy, x.b.group, target, endpoint), endpoint, target);
    }
  }

  lemma GrantsShuffled(s: seq<ProviderGrant>, t: seq<ProviderGrant>, actor: Actor, path: seq<Node>,
                       endpoint: ProviderEndpoint, target: ModelTarget)
    requires forall g :: g in s <==> g in t
    ensures GrantAllows(s, actor, path, endpoint, target) <==> GrantAllows(t, actor, path, endpoint, target)
  {
    forall kind, id, i | 0 <= i < |path|
      ensures AllowsNode(s, actor, kind, id, path, path[i]) == AllowsNode(t, actor, kind, id, path, path[i])
      ensures DeniesNode(s, actor, kind, id, path, path[i]) == DeniesNode(t, actor, kind, id, path, path[i])
    {}
    forall id, i | 0 <= i < |path|
      ensures ProjectHasAllowForKind(s, actor, id, path[i].kind) == ProjectHasAllowForKind(t, actor, id, path[i].kind)
    {}
  }

  /** An entry of the group for that target which no other such entry comes strictly before. */
  ghost predicate LeastFor(targets: seq<GroupTarget>, groupId: string, targetId: string, t: GroupTarget)
  {
    && t in targets && t.groupId == groupId && t.targetId == targetId
    && forall u :: u in targets && u.groupId == groupId && u.targetId == targetId ==> CandidateLeq(t, u)
  }

  /** The foremost entries for a remembered target of the current group are all active or all inactive. */
  ghost predicate StickySettled(x: Context, targets: seq<GroupTarget>)
  {
    StickyRecordFor(x).Some? && StickyRecordFor(x).value.groupId == x.b.group.id ==>
      forall t, u :: LeastFor(targets, x.b.group.id, StickyRecordFor(x).value.targetId, t)
                     && LeastFor(targets, x.b.group.id, StickyRecordFor(x).value.targetId, u)
                     ==> (t.status.Active? <==> u.status.Active?)
  }

  /** The remembered route is still to be had from the entry. */
  ghost predicate WouldHit(x: Context, eval: Evaluator, t: GroupTarget)
  {
    StickyRecordFor(x).Some? && eval(t).Eligible? && eval(t).endpoint.id == StickyRecordFor(x).value.endpointId
  }

  /** No foremost entry hits. */
  ghost predicate NoHit(x: Context, eval: Evaluator, targets: seq<GroupTarget>)
    requires StickyRecordFor(x).Some?
  {
    forall t :: LeastFor(targets, x.b.group.id, StickyRecordFor(x).value.targetId, t) && t.status.Active?
                ==> !WouldHit(x, eval, t)
  }

  /** The route does not hang on the order of the entries: the sticky attempt is settled, or an active foremost
      entry is no hit, or the scan lands on the remembered target anyway. */
  ghost predicate RouteSettled(x: Context, eval: Evaluator, targets: seq<GroupTarget>)
  {
    || StickySettled(x, targets)
    || NoHit(x, eval, targets)
    || (exists t :: LeastEligible(eval, TargetsOf(targets, x.b.group.id), t)
                    && t.targetId == StickyRecordFor(x).value.targetId)
  }

  /** The same error, or the same kind of outcome and the same route. */
  ghost predicate SameResult(p: Result<RoutePlan, GatewayError>, r: Result<RoutePlan, GatewayError>)
  {
    match (p, r)
    case (Err(e), Err(f)) => e == f
    case (Ok(p), Ok(r)) =>
      && (p.outcome.Selected? <==> r.outcome.Selected?)
      && (p.outcome.ProviderGrantDenied? <==> r.outcome.ProviderGrantDenied?)
      && (p.outcome.Selected? ==> SameRoute(p.outcome.selection, r.outcome.selection))
    case _ => false
  }

  lemma UniqueIdsShuffled(c: CatalogSnapshot, d: CatalogSnapshot)
    requires UniqueIds(c) && Shuffled(c, d)
    ensures UniqueIds(d)
  {
    UniquePermuted(c.endpoints, d.endpoints, EndpointId);
    UniquePermuted(c.credentials, d.credentials, CredentialId);
    UniquePermuted(c.targets, d.targets, TargetId);
    UniquePermuted(c.aliases, d.aliases, AliasId);
    UniquePermuted(c.groups, d.groups, GroupId);
    UniquePermuted(c.policies, d.policies, PolicyId);
  }

  /** Permuting any of the eight lists of a catalog with unique ids, in particular of a valid one, leaves the
      route of a plan, or its error or kind of refusal, as it was, when the route is settled. */
  lemma OrderIndependent(c: CatalogSnapshot, d: CatalogSnapshot, q: PlanRequest)
    requires UniqueIds(c) && Shuffled(c, d)
    requires ResolveBinding(c, q).Ok? ==>
               var x := ContextOf(c, q, ResolveBinding(c, q).value); RouteSettled(x, EvaluatorOf(x), c.groupTargets)
    ensures SameResult(Plan(c, q), Plan(d, q))
  {
    UniqueIdsShuffled(c, d);
    BindingShuffled(c, d, q);
    if ResolveBinding(c, q).Ok? {
      ByIdPermuted(c.endpoints, d.endpoints, EndpointId);
      ByIdPermuted(c.credentials, d.credentials, CredentialId);
      ByIdPermuted(c.targets, d.targets, TargetId);
      var b := ResolveBinding(c, q).value;
      var x, y := ContextOf(c, q, b), ContextOf(d, q, b);
      forall t ensures EvaluatorOf(x)(t) == EvaluatorOf(y)(t) { EvaluateShuffled(x, y, t); }
      EvaluatesByTarget(x);
      BoundOrderIndependent(c, d, x, y, EvaluatorOf(x), EvaluatorOf(y));
    }
  }

  /** An evaluation depends on an entry only through its target and whether it is active. */
  ghost predicate Alike(eval: Evaluator, t: GroupTarget, u: GroupTarget)
  {
    t.targetId == u.targetId ==>
      && (eval(t).Eligible? && eval(u).Eligible? ==> eval(t) == eval(u))
      && (t.status.Active? == u.status.Active? ==> eval(t) == eval(u))
  }

  ghost predicate ByTarget(eval: Evaluator)
  {
    (forall t, u :: Alike(eval, t, u)) && forall t :: eval(t).Eligible? ==> t.status.Active?
  }

  lemma EvaluatesByTarget(x: Context)
    ensures ByTarget(EvaluatorOf(x))
  {
  }

  lemma BoundOrderIndependent(c: CatalogSnapshot, d: CatalogSnapshot, x: Context, y: Context,
                              eval: Evaluator, eval': Evaluator)
    requires y == x.(grants := y.grants) && Permuted(c.groupTargets, d.groupTargets)
    requires (forall t :: eval(t) == eval'(t)) && ByTarget(eval)
    requires RouteSettled(x, eval, c.groupTargets)
    ensures SameResult(Ok(PlanBound(x, eval, Candidates(c, x.b.group.id))),
                       Ok(PlanBound(y, eval', Candidates(d, x.b.group.id))))
  {
    var s, t := Candidates(c, x.b.group.id), Candidates(d, x.b.group.id);
    PermutedSameElements(c.groupTargets, d.groupTargets);
    assert forall u :: u in s <==> u in t;
    CandidatesSorted(c, x.b.group.id);
    CandidatesSorted(d, x.b.group.id);
    ChosenShuffled(c, x, y, eval, eval', s, t);
    SameKindAndRoute(x, y, eval, eval', s, t);
  }

  /** The evaluation a plan is selected by: that of a sticky hit, or of the first eligible candidate. */
  ghost function Chosen(x: Context, eval: Evaluator, candidates: seq<GroupTarget>): Option<Evaluation>
  {
    var attempt, k := TrySticky(x, eval, candidates), FirstEligible(eval, candidates);
    if attempt.Hit? then Some(Eligible(attempt.target, attempt.endpoint))
    else if k < |candidates| then Some(eval(candidates[k])) else None
  }

  lemma SameKindAndRoute(x: Context, y: Context, eval: Evaluator, eval': Evaluator,
                         s: seq<GroupTarget>, t: seq<GroupTarget>)
    requires y == x.(grants := y.grants) && forall u :: u in s <==> u in t
    requires forall u :: eval(u) == eval'(u)
    requires Chosen(x, eval, s) == Chosen(y, eval', t)
    ensures SameResult(Ok(PlanBound(x, eval, s)), Ok(PlanBound(y, eval', t)))
  {
    OutcomeKind(x, eval, s);
    OutcomeKind(y, eval', t);
  }

  /** A hit is by a foremost entry for the remembered target, and that entry is active. */
  lemma HitIsForemost(c: CatalogSnapshot, x: Context, eval: Evaluator, s: seq<GroupTarget>) returns (u: GroupTarget)
    requires SortedBy(s, CandidateLeq) && ByTarget(eval) && TrySticky(x, eval, s).Hit?
    requires forall u :: u in s <==> u in c.groupTargets && u.groupId == x.b.group.id
    ensures StickyRecordFor(x).Some? && StickyRecordFor(x).value.groupId == x.b.group.id
    ensures LeastFor(c.groupTargets, x.b.group.id, StickyRecordFor(x).value.targetId, u) && u.status.Active?
    ensures WouldHit(x, eval, u)
    ensures eval(u) == Eligible(TrySticky(x, eval, s).target, TrySticky(x, eval, s).endpoint)
  {
    var id := StickyRecordFor(x).value.targetId;
    u := StickyCandidate(s, id).value;
    StickyIsLeast(s, id);
  }

  /** Where the scan lands on the remembered target, a hit chooses what the scan would have chosen. */
  lemma HitIsScan(c: CatalogSnapshot, x: Context, eval: Evaluator, s: seq<GroupTarget>, w: GroupTarget)
    requires SortedBy(s, CandidateLeq) && ByTarget(eval) && TrySticky(x, eval, s).Hit?
    requires forall u :: u in s <==> u in c.groupTargets && u.groupId == x.b.group.id
    requires LeastEligible(eval, s, w) && w.targetId == StickyRecordFor(x).value.targetId
    ensures Chosen(x, eval, s) == Some(eval(w))
  {
    var u := HitIsForemost(c, x, eval, s);
    assert Alike(eval, u, w);
  }

  lemma ScanIsLeast(eval: Evaluator, s: seq<GroupTarget>, w: GroupTarget)
    requires SortedBy(s, CandidateLeq) && ByTarget(eval) && LeastEligible(eval, s, w)
    ensures FirstEligible(eval, s) < |s| && eval(s[FirstEligible(eval, s)]) == eval(w)
  {
    ScanIsMinimal(eval, s);
    var k := FirstEligible(eval, s);
    assert k < |s| by {
      var j :| 0 <= j < |s| && s[j] == w;
    }
    LeqAntisymmetric(s[k].targetId, w.targetId);
    assert Alike(eval, s[k], w);
  }

  lemma ChosenByScan(c: CatalogSnapshot, x: Context, eval: Evaluator, s: seq<GroupTarget>, w: GroupTarget)
    requires SortedBy(s, CandidateLeq) && ByTarget(eval)
    requires forall u :: u in s <==> u in c.groupTargets && u.groupId == x.b.group.id
    requires LeastEligible(eval, s, w) && StickyRecordFor(x).Some? && w.targetId == StickyRecordFor(x).value.targetId
    ensures Chosen(x, eval, s) == Some(eval(w))
  {
    ScanIsLeast(eval, s, w);
    if TrySticky(x, eval, s).Hit? { HitIsScan(c, x, eval, s, w); }
  }

  lemma NoHitIsTried(c: CatalogSnapshot, x: Context, eval: Evaluator, s: seq<GroupTarget>)
    requires SortedBy(s, CandidateLeq) && ByTarget(eval)
    requires forall u :: u in s <==> u in c.groupTargets && u.groupId == x.b.group.id
    requires StickyRecordFor(x).Some? && NoHit(x, eval, c.groupTargets)
    ensures !TrySticky(x, eval, s).Hit?
  {
    if TrySticky(x, eval, s).Hit? { var u := HitIsForemost(c, x, eval, s); }
  }

  lemma SameAttemptSameChoice(x: Context, y: Context, eval: Evaluator, eval': Evaluator,
                              s: seq<GroupTarget>, t: seq<GroupTarget>)
    requires SortedBy(s, CandidateLeq) && SortedBy(t, CandidateLeq) && forall u :: u in s <==> u in t
    requires (forall u :: eval(u) == eval'(u)) && ByTarget(eval)
    requires var a, b := TrySticky(x, eval, s), TrySticky(y, eval', t); a == b || (!a.Hit? && !b.Hit?)
    ensures Chosen(x, eval, s) == Chosen(y, eval', t)
  {
    SameLeast(eval, eval', s, t);
  }

  lemma ChosenShuffled(c: CatalogSnapshot, x: Context, y: Context, eval: Evaluator, eval': Evaluator,
                       s: seq<GroupTarget>, t: seq<GroupTarget>)
    requires SortedBy(s, CandidateLeq) && SortedBy(t, CandidateLeq) && forall u :: u in s <==> u in t
    requires forall u :: u in s <==> u in c.groupTargets && u.groupId == x.b.group.id
    requires y == x.(grants := y.grants) && (forall u :: eval(u) == eval'(u)) && ByTarget(eval)
    requires RouteSettled(x, eval, c.groupTargets)
    ensures Chosen(x, eval, s) == Chosen(y, eval', t)
  {
    assert ByTarget(eval') by { assert forall t, u :: Alike(eval, t, u) ==> Alike(eval', t, u); }
    if StickySettled(x, c.groupTargets) {
      AttemptShuffled(c, x, y, eval, eval', s, t);
      SameAttemptSameChoice(x, y, eval, eval', s, t);
    } else if NoHit(x, eval, c.groupTargets) {
      NoHitIsTried(c, x, eval, s);
      assert NoHit(y, eval', c.groupTargets);
      NoHitIsTried(c, y, eval', t);
      SameAttemptSameChoice(x, y, eval, eval', s, t);
    } else {
      var w :| LeastEligible(eval, TargetsOf(c.groupTargets, x.b.group.id), w)
               && w.targetId == StickyRecordFor(x).value.targetId;
      assert LeastEligible(eval, s, w) && LeastEligible(eval', t, w);
      ChosenByScan(c, x, eval, s, w);
      ChosenByScan(c, y, eval', t, w);
    }
  }

  lemma SameLeast(eval: Evaluator, eval': Evaluator, s: seq<GroupTarget>, t: seq<GroupTarget>)
    requires SortedBy(s, CandidateLeq) && SortedBy(t, CandidateLeq) && forall u :: u in s <==> u in t
    requires (forall u :: eval(u) == eval'(u)) && ByTarget(eval)
    ensures var k, m := FirstEligible(eval, s), FirstEligible(eval', t);
            (k < |s| <==> m < |t|) && (k < |s| ==> eval(s[k]) == eval'(t[m]))
  {
    ScanIsMinimal(eval, s);
    ScanIsMinimal(eval', t);
    var k, m := FirstEligible(eval, s), FirstEligible(eval', t);
    if k < |s| { assert s[k] in t; }
    if m < |t| { assert t[m] in s; }
    if k < |s| && m < |t| {
      LeqAntisymmetric(s[k].targetId, t[m].targetId);
      assert Alike(eval, s[k], t[m]);
    }
  }

  /** The sticky lookup finds a least entry for the remembered target. */
  lemma {:induction false} StickyIsLeast(candidates: seq<GroupTarget>, targetId: string)
    requires SortedBy(candidates, CandidateLeq)
    ensures var r := StickyCandidate(candidates, targetId);
            r.Some? ==> forall u :: u in candidates && u.targetId == targetId ==> CandidateLeq(r.value, u)
  {
    if candidates == [] {
    } else {
      StickyIsLeast(candidates[1..], targetId);
      LeqTotal(targetId, targetId);
      forall u | u in candidates && u.targetId == targetId && candidates[0].targetId == targetId
        ensures CandidateLeq(candidates[0], u)
      {
        var j :| 0 <= j < |candidates| && candidates[j] == u;
      }
    }
  }

  lemma AttemptShuffled(c: CatalogSnapshot, x: Context, y: Context, eval: Evaluator, eval': Evaluator,
                        s: seq<GroupTarget>, t: seq<GroupTarget>)
    requires SortedBy(s, CandidateLeq) && SortedBy(t, CandidateLeq) && forall u :: u in s <==> u in t
    requires forall u :: u in s <==> u in c.groupTargets && u.groupId == x.b.group.id
    requires y == x.(grants := y.grants) && (forall u :: eval(u) == eval'(u)) && ByTarget(eval)
    requires StickySettled(x, c.groupTargets)
    ensures TrySticky(x, eval, s) == TrySticky(y, eval', t)
  {
    if StickyRecordFor(x).Some? && StickyRecordFor(x).value.groupId == x.b.group.id {
      var id := StickyRecordFor(x).value.targetId;
      var u, w := StickyCandidate(s, id), StickyCandidate(t, id);
      if u.Some? && w.Some? {
        StickyIsLeast(s, id);
        StickyIsLeast(t, id);
        assert LeastFor(c.groupTargets, x.b.group.id, id, u.value);
        assert LeastFor(c.groupTargets, x.b.group.id, id, w.value);
        assert Alike(eval, u.value, w.value);
      }
    }
  }

  // ---------- when the order of entries matters to the sticky attempt ----------

  /** The sticky attempt over a given listing of the entries. */
  ghost function AttemptOver(x: Context, targets: seq<GroupTarget>): StickyAttempt
  {
    TrySticky(x, EvaluatorOf(x), SortBy(TargetsOf(targets, x.b.group.id), CandidateLeq))
  }

  /** The sticky attempt is the same for every order of the entries exactly when it is settled. */
  lemma StickyOrderIff(x: Context, targets: seq<GroupTarget>)
    ensures (forall ts :: Permuted(targets, ts) ==> AttemptOver(x, ts) == AttemptOver(x, targets)) <==>
            StickySettled(x, targets)
  {
    if StickySettled(x, targets) {
      forall ts | Permuted(targets, ts) ensures AttemptOver(x, ts) == AttemptOver(x, targets) {
        SettledAttempt(x, targets, ts);
      }
    } else {
      var id := StickyRecordFor(x).value.targetId;
      var t, u :| LeastFor(targets, x.b.group.id, id, t) && LeastFor(targets, x.b.group.id, id, u)
                  && t.status.Active? && !u.status.Active?;
      var ts := ToFront(targets, t);
      var us := ToFront(targets, u);
      PermutedSameElements(targets, ts);
      PermutedSameElements(targets, us);
      FrontIsTried(x, ts, t);
      FrontIsTried(x, us, u);
      assert AttemptOver(x, ts) != AttemptOver(x, us);
    }
  }

  lemma SettledAttempt(x: Context, targets: seq<GroupTarget>, ts: seq<GroupTarget>)
    requires StickySettled(x, targets) && Permuted(targets, ts)
    ensures AttemptOver(x, ts) == AttemptOver(x, targets)
  {
    var c := CatalogSnapshot([], [], [], [], [], targets, [], []);
    var d := c.(groupTargets := ts);
    PermutedSameElements(targets, ts);
    CandidatesSorted(c, x.b.group.id);
    CandidatesSorted(d, x.b.group.id);
    EvaluatesByTarget(x);
    AttemptShuffled(c, x, x, EvaluatorOf(x), EvaluatorOf(x), Candidates(c, x.b.group.id), Candidates(d, x.b.group.id));
  }

  lemma ToFront(s: seq<GroupTarget>, t: GroupTarget) returns (r: seq<GroupTarget>)
    requires t in s
    ensures Permuted(s, r) && r != [] && r[0] == t
  {
    var i :| 0 <= i < |s| && s[i] == t;
    r := [t] + s[..i] + s[i + 1..];
    assert s == s[..i] + [t] + s[i + 1..];
  }

  /** A foremost entry that is listed first is the one the sticky attempt evaluates. */
  lemma FrontIsTried(x: Context, ts: seq<GroupTarget>, t: GroupTarget)
    requires StickyRecordFor(x).Some? && StickyRecordFor(x).value.groupId == x.b.group.id
    requires ts != [] && ts[0] == t && LeastFor(ts, x.b.group.id, StickyRecordFor(x).value.targetId, t)
    ensures AttemptOver(x, ts) == Miss(CandidateFiltered(GroupTargetInactive)) <==> !t.status.Active?
  {
    FrontIsFound(ts, x.b.group.id, t);
    InactiveIsFiltered(x, t);
    FoundIsTried(x, EvaluatorOf(x), SortBy(TargetsOf(ts, x.b.group.id), CandidateLeq), t);
  }

  lemma FoundIsTried(x: Context, eval: Evaluator, candidates: seq<GroupTarget>, t: GroupTarget)
    requires StickyRecordFor(x).Some? && StickyRecordFor(x).value.groupId == x.b.group.id
    requires StickyCandidate(candidates, StickyRecordFor(x).value.targetId) == Some(t)
    ensures TrySticky(x, eval, candidates) == Miss(CandidateFiltered(GroupTargetInactive)) <==>
            eval(t) == Filtered(GroupTargetInactive)
  {}

  lemma InactiveIsFiltered(x: Context, t: GroupTarget)
    ensures EvaluatorOf(x)(t) == Filtered(GroupTargetInactive) <==> !t.status.Active?
  {}

  /** The entries the sort cannot tell from `t`. */
  function TiedWith(t: GroupTarget): GroupTarget -> bool
  {
    (u: GroupTarget) => u.targetId == t.targetId && u.priority == t.priority && u.weight == t.weight
  }

  /** The sort keeps tied entries in listed order, so the one listed first is found. */
  lemma FrontIsFound(ts: seq<GroupTarget>, groupId: string, t: GroupTarget)
    requires ts != [] && ts[0] == t && LeastFor(ts, groupId, t.targetId, t)
    ensures StickyCandidate(SortBy(TargetsOf(ts, groupId), CandidateLeq), t.targetId) == Some(t)
  {
    var list, tied := TargetsOf(ts, groupId), TiedWith(t);
    var sorted := SortBy(list, CandidateLeq);
    CandidateOrder();
    LeqTotal(t.targetId, t.targetId);
    SortBySorted(list, CandidateLeq);
    SortByStable(list, CandidateLeq, tied);
    StickyIsLeast(sorted, t.targetId);
    assert list[0] == t && t in sorted;
    assert Filter(list, tied)[0] == t;
    var found := StickyCandidate(sorted, t.targetId);
    assert CandidateLeq(found.value, t) && CandidateLeq(t, found.value);
    FoundIsFirstTied(sorted, t);
  }

  lemma {:induction false} FoundIsFirstTied(s: seq<GroupTarget>, t: GroupTarget)
    requires var found := StickyCandidate(s, t.targetId); found.Some? && TiedWith(t)(found.value)
    ensures Filter(s, TiedWith(t)) != [] && Filter(s, TiedWith(t))[0] == StickyCandidate(s, t.targetId).value
  {
    if s[0].targetId == t.targetId {
    } else {
      FoundIsFirstTied(s[1..], t);
    }
  }

  // ---------- when the order of entries matters to the route ----------

  ghost function BoundContext(c: CatalogSnapshot, q: PlanRequest): Context
    requires ResolveBinding(c, q).Ok?
  {
    ContextOf(c, q, ResolveBinding(c, q).value)
  }

  /** A foremost entry for the remembered target of the current group, which the catalog lists before all others. */
  ghost predicate ForemostAndFirst(c: CatalogSnapshot, q: PlanRequest, t: GroupTarget)
  {
    && ResolveBinding(c, q).Ok?
    && var x := BoundContext(c, q);
    && StickyRecordFor(x).Some? && StickyRecordFor(x).value.groupId == x.b.group.id
    && c.groupTargets != [] && c.groupTargets[0] == t
    && LeastFor(c.groupTargets, x.b.group.id, StickyRecordFor(x).value.targetId, t)
  }

  /** With a foremost entry that hits listed first, the plan is the remembered route. */
  lemma HitListedFirst(c: CatalogSnapshot, q: PlanRequest, t: GroupTarget)
    requires UniqueIds(c) && ForemostAndFirst(c, q, t)
    requires WouldHit(BoundContext(c, q), EvaluatorOf(BoundContext(c, q)), t)
    ensures Plan(c, q).Ok? && Plan(c, q).value.outcome.Selected?
    ensures Plan(c, q).value.outcome.selection.targetId == t.targetId
  {
    var x := BoundContext(c, q);
    FrontIsFound(c.groupTargets, x.b.group.id, t);
    EligibleTarget(c, x, t);
  }

  /** With an inactive foremost entry listed first, the plan is that of the scan. */
  lemma MissListedFirst(c: CatalogSnapshot, q: PlanRequest, u: GroupTarget, t: GroupTarget) returns (w: GroupTarget)
    requires UniqueIds(c) && ForemostAndFirst(c, q, u) && !u.status.Active?
    requires var x := BoundContext(c, q);
             t in c.groupTargets && t.groupId == x.b.group.id && EvaluatorOf(x)(t).Eligible?
    ensures var x := BoundContext(c, q);
            LeastEligible(EvaluatorOf(x), TargetsOf(c.groupTargets, x.b.group.id), w)
    ensures Plan(c, q).Ok? && Plan(c, q).value.outcome.Selected?
    ensures Plan(c, q).value.outcome.selection.targetId == w.targetId
  {
    var x := BoundContext(c, q);
    var candidates := Candidates(c, x.b.group.id);
    CandidatesSorted(c, x.b.group.id);
    FrontIsTried(x, c.groupTargets, u);
    assert t in candidates;
    OutcomeKind(x, EvaluatorOf(x), candidates);
    ScanIsMinimal(EvaluatorOf(x), candidates);
    w := candidates[FirstEligible(EvaluatorOf(x), candidates)];
    EligibleTarget(c, x, w);
  }

  /** The same catalog with one entry moved to the front. */
  lemma MovedToFront(c: CatalogSnapshot, q: PlanRequest, t: GroupTarget) returns (d: CatalogSnapshot)
    requires UniqueIds(c) && ResolveBinding(c, q).Ok? && t in c.groupTargets
    ensures Shuffled(c, d) && d == c.(groupTargets := d.groupTargets) && UniqueIds(d)
    ensures ResolveBinding(d, q) == ResolveBinding(c, q) && BoundContext(d, q) == BoundContext(c, q)
    ensures d.groupTargets != [] && d.groupTargets[0] == t && forall u :: u in d.groupTargets <==> u in c.groupTargets
  {
    var ts := ToFront(c.groupTargets, t);
    PermutedSameElements(c.groupTargets, ts);
    d := c.(groupTargets := ts);
  }

  lemma OrdersDiffer(c: CatalogSnapshot, q: PlanRequest, t: GroupTarget, u: GroupTarget)
    requires UniqueIds(c) && ResolveBinding(c, q).Ok?
    requires var x := BoundContext(c, q);
             && !RouteSettled(x, EvaluatorOf(x), c.groupTargets)
             && LeastFor(c.groupTargets, x.b.group.id, StickyRecordFor(x).value.targetId, t)
             && LeastFor(c.groupTargets, x.b.group.id, StickyRecordFor(x).value.targetId, u)
             && WouldHit(x, EvaluatorOf(x), t) && !u.status.Active?
    ensures exists d :: Shuffled(c, d) && !SameResult(Plan(c, q), Plan(d, q))
  {
    var hit := MovedToFront(c, q, t);
    HitListedFirst(hit, q, t);
    var miss := MovedToFront(c, q, u);
    var w := MissListedFirst(miss, q, u, t);
    var x := BoundContext(c, q);
    assert LeastEligible(EvaluatorOf(x), TargetsOf(c.groupTargets, x.b.group.id), w);
    assert w.targetId != StickyRecordFor(x).value.targetId;
  }

  /** The route of a plan, or its error or kind of refusal, is the same for every order of the catalog's lists
      exactly when the route is settled. */
  lemma PlanOrderIff(c: CatalogSnapshot, q: PlanRequest)
    requires UniqueIds(c) && ResolveBinding(c, q).Ok?
    ensures var x := BoundContext(c, q);
            (forall d :: Shuffled(c, d) ==> SameResult(Plan(c, q), Plan(d, q)))
            <==> RouteSettled(x, EvaluatorOf(x), c.groupTargets)
  {
    var x := BoundContext(c, q);
    if RouteSettled(x, EvaluatorOf(x), c.groupTargets) {
      forall d | Shuffled(c, d) ensures SameResult(Plan(c, q), Plan(d, q)) { OrderIndependent(c, d, q); }
    } else {
      var id := StickyRecordFor(x).value.targetId;
      var u :| LeastFor(c.groupTargets, x.b.group.id, id, u) && !u.status.Active?;
      var t :| LeastFor(c.groupTargets, x.b.group.id, id, t) && WouldHit(x, EvaluatorOf(x), t);
      OrdersDiffer(c, q, t, u);
    }
  }
}
