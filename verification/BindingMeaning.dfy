/** What a request is bound to, and why not, said over the lists of the catalog; and why a remembered route was
    not taken. */
module BindingMeaning {
  import opened Base
  import opened Catalog
  import opened HotState
  import opened Validation
  import opened Faults
  import opened Planner
  import opened RoutingOrder

  /** The alias is one of the actor's tenant and of that name; the organization it names is the actor's, and the
      project it names is the actor's in the actor's organization. */
  ghost predicate Visible(a: ModelAlias, actor: Actor, name: string)
  {
    && a.tenantId == actor.tenantId && a.name == name
    && (a.organizationId.Some? ==> a.organizationId == actor.organizationId)
    && (a.projectId.Some? ==> a.projectId == actor.projectId && a.organizationId == actor.organizationId)
  }

  /** Every other visible alias of the name is wider. */
  ghost predicate Narrowest(aliases: seq<ModelAlias>, actor: Actor, name: string, a: ModelAlias)
  {
    && a in aliases && Visible(a, actor, name)
    && forall b :: b in aliases && Visible(b, actor, name) && b != a ==> Wider(b, a)
  }

  lemma ReachesMeans(a: ModelAlias, actor: Actor, name: string)
    ensures Reaches(a, actor, name) <==> Visible(a, actor, name)
  {
  }

  lemma BestIsNarrowest(aliases: seq<ModelAlias>, actor: Actor, name: string, a: ModelAlias)
    ensures BestAlias(aliases, actor, name, a) <==> Narrowest(aliases, actor, name, a)
  {
    forall b: ModelAlias ensures Reaches(b, actor, name) <==> Visible(b, actor, name) { ReachesMeans(b, actor, name); }
  }

  lemma ResolvedAliasMeans(aliases: seq<ModelAlias>, actor: Actor, name: string)
    requires UniqueBy(aliases, AliasId)
    ensures match ResolveAlias(aliases, actor, name)
            case Ok(a) => Narrowest(aliases, actor, name, a)
            case Err(e) =>
              if forall a :: a in aliases ==> !Visible(a, actor, name) then e == NotFound(name)
              else e == BadRequest(AmbiguousAlias) && forall a :: !Narrowest(aliases, actor, name, a)
  {
    ResolveAliasMeans(aliases, actor, name);
    forall a: ModelAlias ensures Reaches(a, actor, name) <==> Visible(a, actor, name) { ReachesMeans(a, actor, name); }
    forall a ensures BestAlias(aliases, actor, name, a) <==> Narrowest(aliases, actor, name, a) {
      BestIsNarrowest(aliases, actor, name, a);
    }
  }

  /** The alias's policy and the policy's group are there and active. */
  ghost predicate Ready(c: CatalogSnapshot, a: ModelAlias, policy: RoutePolicy, group: RoutingGroup)
  {
    && policy in c.policies && policy.id == a.policyId && policy.status == ResourceStatus.Active
    && group in c.groups && group.id == policy.groupId && group.status == ResourceStatus.Active
  }

  /** The alias that the name stands for, for the actor, is active or not and of the protocol asked for or not. */
  ghost predicate StandsFor(c: CatalogSnapshot, q: PlanRequest, a: ModelAlias, active: bool, rightProtocol: bool)
  {
    && Narrowest(c.aliases, q.actor, q.aliasName, a)
    && (a.status == ResourceStatus.Active <==> active) && (a.protocolFamily == q.protocolFamily <==> rightProtocol)
  }

  /** With unique ids, what a request is bound to, or the one reason why not. */
  lemma BindingMeans(c: CatalogSnapshot, q: PlanRequest)
    requires UniqueIds(c)
    ensures match ResolveBinding(c, q)
            case Ok(b) => StandsFor(c, q, b.alias, true, true) && Ready(c, b.alias, b.policy, b.group)
            case Err(NotFound(name)) =>
              && name == q.aliasName
              && ((forall a :: a in c.aliases ==> !Visible(a, q.actor, q.aliasName))
                  || exists a :: StandsFor(c, q, a, false, true))
            case Err(BadRequest(AmbiguousAlias)) =>
              && (exists a :: a in c.aliases && Visible(a, q.actor, q.aliasName))
              && (forall a :: !Narrowest(c.aliases, q.actor, q.aliasName, a))
            case Err(BadRequest(AliasProtocolMismatch)) => exists a, active :: StandsFor(c, q, a, active, false)
            case Err(BadRequest(InvalidCatalog)) => false
            case Err(NotReady) =>
              exists a :: StandsFor(c, q, a, true, true) && forall policy, group :: !Ready(c, a, policy, group)
  {
    ResolvedAliasMeans(c.aliases, q.actor, q.aliasName);
    if ResolveAlias(c.aliases, q.actor, q.aliasName).Ok? {
      var a := ResolveAlias(c.aliases, q.actor, q.aliasName).value;
      assert StandsFor(c, q, a, a.status == ResourceStatus.Active, a.protocolFamily == q.protocolFamily);
      if a.status == ResourceStatus.Active && a.protocolFamily == q.protocolFamily { ReadinessMeans(c, q, a); }
    }
  }

  lemma ReadinessMeans(c: CatalogSnapshot, q: PlanRequest, a: ModelAlias)
    requires UniqueIds(c) && ResolveAlias(c.aliases, q.actor, q.aliasName) == Ok(a)
    requires a.status == ResourceStatus.Active && a.protocolFamily == q.protocolFamily
    ensures match ResolveBinding(c, q)
            case Ok(b) => b.alias == a && Ready(c, a, b.policy, b.group)
            case Err(e) => e == NotReady && forall policy, group :: !Ready(c, a, policy, group)
  {
    forall policy, group | Ready(c, a, policy, group)
      ensures ResolveBinding(c, q) == Ok(Binding(a, policy, group))
    {
      ByIdMembership(c.policies, PolicyId, policy.id);
      ByIdMembership(c.groups, GroupId, group.id);
      FoundById(c.policies, PolicyId, policy);
      FoundById(c.groups, GroupId, group);
    }
  }

  lemma FoundById<T(!new)>(s: seq<T>, key: T -> string, x: T)
    requires UniqueBy(s, key) && x in s
    ensures FindById(s, key, key(x)) == Some(x)
  {
    ByIdMembership(s, key, key(x));
  }

  /** A bound request is refused as an invalid catalog exactly when an endpoint, credential or target id repeats. */
  lemma RepeatedIdsAreRefused(c: CatalogSnapshot, q: PlanRequest)
    requires ResolveBinding(c, q).Ok?
    ensures Plan(c, q).Err? <==>
            || Repeats(c.endpoints, (e: ProviderEndpoint) => e.id)
            || Repeats(c.credentials, (k: UpstreamCredential) => k.id)
            || Repeats(c.targets, (t: ModelTarget) => t.id)
    ensures Plan(c, q).Err? ==> Plan(c, q) == Err(BadRequest(InvalidCatalog))
  {
    UniqueIffNoRepeat(c.endpoints, EndpointId, (e: ProviderEndpoint) => e.id);
    UniqueIffNoRepeat(c.credentials, CredentialId, (k: UpstreamCredential) => k.id);
    UniqueIffNoRepeat(c.targets, TargetId, (t: ModelTarget) => t.id);
  }

  // ---------- why a remembered route was not taken ----------

  /** The entry of the group that stands for the remembered target. */
  ghost predicate StandsForTarget(c: CatalogSnapshot, x: Context, record: StickyRecord, t: GroupTarget)
  {
    record.groupId == x.b.group.id && LeastFor(c.groupTargets, x.b.group.id, record.targetId, t)
  }

  /** What a selection says about the remembered route is the reason it was not taken. */
  ghost predicate Explains(c: CatalogSnapshot, x: Context, why: Option<MissReason>)
  {
    match (StickyRecordFor(x), why)
    case (None, why) => why == None
    case (Some(record), Some(RoutingGroupChanged)) => record.groupId != x.b.group.id
    case (Some(record), Some(ModelTargetMissing)) =>
      && record.groupId == x.b.group.id
      && forall t :: t in c.groupTargets && t.groupId == x.b.group.id ==> t.targetId != record.targetId
    case (Some(record), Some(ProviderEndpointChanged)) =>
      exists t :: StandsForTarget(c, x, record, t) && Evaluate(x, t).Eligible?
                  && Evaluate(x, t).endpoint.id != record.endpointId
    case (Some(record), Some(CandidateFiltered(reason))) =>
      exists t :: StandsForTarget(c, x, record, t) && Evaluate(x, t) == Filtered(reason)
    case (Some(record), None) => false
  }

  /** The entry the lookup finds is the one that stands for the target. */
  lemma FoundStandsForTarget(c: CatalogSnapshot, x: Context, record: StickyRecord)
    requires record.groupId == x.b.group.id
    ensures match StickyCandidate(Candidates(c, x.b.group.id), record.targetId)
            case Some(t) => StandsForTarget(c, x, record, t)
            case None => forall t :: t in c.groupTargets && t.groupId == x.b.group.id ==> t.targetId != record.targetId
  {
    CandidatesSorted(c, x.b.group.id);
    StickyIsLeast(Candidates(c, x.b.group.id), record.targetId);
    if StickyCandidate(Candidates(c, x.b.group.id), record.targetId).None? {
      assert forall t :: t in c.groupTargets && t.groupId == x.b.group.id ==> t in Candidates(c, x.b.group.id);
    }
  }

  /** The attempt, by what the lookup finds. */
  lemma AttemptByFound(x: Context, eval: Evaluator, candidates: seq<GroupTarget>, record: StickyRecord)
    requires StickyRecordFor(x) == Some(record) && !TrySticky(x, eval, candidates).Hit?
    ensures MissOf(TrySticky(x, eval, candidates)) ==
            if record.groupId != x.b.group.id then Some(RoutingGroupChanged)
            else
              match StickyCandidate(candidates, record.targetId)
              case None => Some(ModelTargetMissing)
              case Some(t) =>
                if eval(t).Eligible? then Some(ProviderEndpointChanged) else Some(CandidateFiltered(eval(t).reason))
    ensures record.groupId == x.b.group.id && StickyCandidate(candidates, record.targetId).Some? ==>
              var e := eval(StickyCandidate(candidates, record.targetId).value);
              e.Eligible? ==> e.endpoint.id != record.endpointId
  {
  }

  lemma AttemptExplains(c: CatalogSnapshot, x: Context, attempt: StickyAttempt)
    requires attempt == TrySticky(x, EvaluatorOf(x), Candidates(c, x.b.group.id)) && !attempt.Hit?
    ensures Explains(c, x, MissOf(attempt))
  {
    if StickyRecordFor(x).Some? {
      var record := StickyRecordFor(x).value;
      AttemptByFound(x, EvaluatorOf(x), Candidates(c, x.b.group.id), record);
      if record.groupId == x.b.group.id {
        FoundStandsForTarget(c, x, record);
        var found := StickyCandidate(Candidates(c, x.b.group.id), record.targetId);
        if found.Some? { assert EvaluatorOf(x)(found.value) == Evaluate(x, found.value); }
      }
    }
  }

  lemma BoundMiss(x: Context, eval: Evaluator, candidates: seq<GroupTarget>)
    requires PlanBound(x, eval, candidates).outcome.Selected?
    ensures var s, attempt := PlanBound(x, eval, candidates).outcome.selection, TrySticky(x, eval, candidates);
            && (s.stickyHit <==> attempt.Hit?)
            && s.stickyMissReason == if attempt.Hit? then None else MissOf(attempt)
  {
  }

  /** A selection that is no sticky hit says why the remembered route was not taken, if there was one: its group
      changed, its target is gone, its endpoint changed, or its entry was filtered and by what. A hit says nothing. */
  lemma MissReasonIsTrue(c: CatalogSnapshot, q: PlanRequest)
    requires Plan(c, q).Ok? && Plan(c, q).value.outcome.Selected?
    ensures var s := Plan(c, q).value.outcome.selection;
            if s.stickyHit then s.stickyMissReason == None else Explains(c, BoundContext(c, q), s.stickyMissReason)
  {
    var x := BoundContext(c, q);
    BoundMiss(x, EvaluatorOf(x), Candidates(c, x.b.group.id));
    var attempt := TrySticky(x, EvaluatorOf(x), Candidates(c, x.b.group.id));
    if !attempt.Hit? { AttemptExplains(c, x, attempt); }
  }
}
