# Verified model of the Starweaver gateway and platform core

A Dafny model of the parts of Starweaver where a mistake would be hard to see: the gateway's route planner and
provider grants, its runtime budget leases, counters and hot-state cache, config publication, and the platform's
membership, invitation and external identity stores. `dafny verify dfyconfig.toml` checks the project.

| file | what it models |
|---|---|
| `Base.dfy`, `Text.dfy` | identifier order, stable sort, keyed indexes, lookup in ordered maps, trimming |
| `Catalog.dfy`, `Validation.dfy`, `Faults.dfy` | the catalog of a config snapshot, its validation, and the faults it is refused for |
| `Grants.dfy`, `GrantMeaning.dfy` | the two-scope allow/deny closure over alias, policy, group, target, endpoint; what grants mean |
| `Evidence.dfy`, `Planner.dfy` | filter evidence; alias resolution, candidate evaluation, sticky attempt, scan |
| `RoutingLaws.dfy`, `RoutingOrder.dfy`, `OrderWitness.dfy`, `BindingMeaning.dfy`, `GrantEdits.dfy` | laws of every plan |
| `HotState.dfy`, `HotCache.dfy`, `StickyMemory.dfy` | cache keys, the expiring cache, the planner over the cache |
| `Leases.dfy`, `LeaseRuns.dfy`, `LeaseOverlap.dfy` | leases in two copies with failing writes; runs of whole and of overlapping operations |
| `Counters.dfy`, `BudgetBooks.dfy` | quota counters; counters together with leases |
| `ConfigStore.dfy` | publication and rollback of config snapshots |
| `Membership.dfy`, `Invitations.dfy`, `Identities.dfy` | the platform's lifecycle stores |
| `PathEncoding.dfy` | percent-encoding of provider path segments |

Conventions. A method whose source updates state or loops is proved against a function on values (`Plan`, `Step`,
`Sweep`, `DoUpsert`, …); the laws are lemmas about that function over all inputs or all runs, and
lemmas named `…Means` say over plain fields what an operation does, without its own definitions. Identifiers are strings
in code point order, which is the order Rust gives UTF-8 text. Times are integers. `urlOk` and `cedarOk` stand for the
URL parser and the Cedar policy parser and are arbitrary. Error values keep their cause, not their message text. The
hot state gives one fixed answer per question for the length of a plan. A call to the cache server is done, fails without
effect, or lands and is reported as failed.

Results that are less obvious than the code suggests:

- Switching a deny between `self_only` and `deny_descendants` never changes a plan (`GrantEdits.DenyModeNeverMatters`).
- The first grant in closure form switches all legacy grants of the tenant off (`GrantEdits.FirstClosureGrantOnPlan`).
- The order of a valid catalog's entries can change the route; exactly when is in `RoutingOrder.PlanOrderIff`, and
  `OrderWitness.OrderChangesRoute` is such a catalog.
- In runs of whole operations a lease is handed back at most once whatever fails, but a write that lands while being
  reported as failed can lose it for good, and calls that overlap on it can hand it back twice
  (`LeaseRuns.AtMostOnce`, `LeaseRuns.ExactlyOnceIff`, `LeaseOverlap.ApartIff`, `LeaseOverlap.OverlapHandsBackTwice`).
- A failed saturating adjust reads as 0, so under a limit that is not negative a failed reservation is admitted whatever the
  counter holds, and if its amount never arrived later calls are admitted on a counter that is too low
  (`Counters.LimitHoldsIff`, `Counters.FailedTakePassesLimit`, `Counters.DroppedTakePassesLimit`).
- A membership upsert that finds a record stores the requested kind and parent before checking them
  (`Membership.UpsertKeepsValidIff`), and revoking an invitation stores any timestamp (`Invitations.StepKeepsValidIff`).

Smaller facts that follow from the definitions and are steps of the laws below: `RoutingLaws.FirstFailingFilter`,
`HotCache.DropWindow`, `Membership.UpsertOutcome`, `Membership.StepVersions`, `Invitations.StepEffect` and
`Identities.UpsertOutcome`.

## Model

| member | source | states |
|---|---|---|
| Validation.IndexBy | crates/starweaver-gateway/src/catalog.rs:1531-1615 | The index functions succeed exactly when no id repeats, and then map every id to its record |
| Validation.GroupTargetsByGroup | crates/starweaver-gateway/src/catalog.rs:1617-1628 | The index lists every entry once under its group, in list order, and has no empty group |
| Validation.Validate | crates/starweaver-gateway/src/catalog.rs:61-83 | Accepts a catalog exactly when its ids are unique and every reference, protocol, credential, policy, grant and alias rule holds between the lists; otherwise a bad request |
| Validation.ChecksMeanValid | crates/starweaver-gateway/src/catalog.rs:1128-1411 | Checking against the indexes is the same as the relation stated over the lists |
| Faults.ValidIffNoFault | crates/starweaver-gateway/src/catalog.rs:1076-1431 | A catalog is valid exactly when it has none of the faults, each written out over the fields: repeated ids, missing or foreign references, protocols, credential kinds and statuses, sticky lifetimes outside 60 to 86400 seconds, grants without scope or resource or with a mode that does not go with the effect; the address check is the given `urlOk` |
| Validation.ValidGrantsHaveValidModes | crates/starweaver-gateway/src/catalog.rs:1413-1431 | A valid catalog has no allow with deny_descendants and no deny with include_descendants |
| Grants.AppliesByPosition | crates/starweaver-gateway/src/catalog.rs:1468-1506 | What a grant reaches, by path positions: its own node, or its own node and everything after it |
| Grants.OrganizationClosedForm | crates/starweaver-gateway/src/catalog.rs:440-451 | For grants with the modes validation accepts: a scope admits a path exactly when no in-scope active deny names any of its nodes and every node before the earliest include-descendants allow has its own self-only allow |
| Grants.ProjectClosedForm | crates/starweaver-gateway/src/catalog.rs:453-496 | Project scope, for the same grants: the same deny rule, and the allow rule only for kinds the project has allows for |
| Grants.SpecClosedForm | crates/starweaver-gateway/src/catalog.rs:410-438 | The closure rule as a whole, for the same grants: an organization that admits the path, and the project too if the actor has one |
| Grants.DenyModeIrrelevant | crates/starweaver-gateway/src/catalog.rs:498-528 | Switching any denies between self_only and deny_descendants leaves every grant decision as it was |
| Grants.DenyOnlyNarrows | crates/starweaver-gateway/src/catalog.rs:368-408 | Adding a deny never admits a refused path, also when it moves the tenant from the legacy to the closure rule |
| Grants.AllowKeepsUnlessShutOut | crates/starweaver-gateway/src/catalog.rs:453-512 | Under the closure rule an added allow keeps an admitted path admitted exactly when it does not open a project allow list that misses a node; an organization-scoped one always keeps it |
| Grants.FirstClosureGrant | crates/starweaver-gateway/src/catalog.rs:368-384 | The first grant in closure form, allow or deny, switches the legacy grants off: a path is then admitted exactly when that grant is an include-descendants allow of the actor's organization on the alias |
| Grants.LegacyGrantOnlyWidens | crates/starweaver-gateway/src/catalog.rs:386-408 | While no grant is in closure form, a further grant never takes a path away |
| GrantMeaning.DecisionMeans | crates/starweaver-gateway/src/catalog.rs:368-528 | For every list of grants, valid or not: the decision is the meaning of the grants over their own fields and the five ids of the route, under the legacy rule and under the closure rule |
| GrantMeaning.RuleByForm | crates/starweaver-gateway/src/catalog.rs:380-384 | The closure rule applies exactly when the tenant has an active grant that says more than endpoint, target and boundaries |
| GrantMeaning.SelectedIsPermitted | crates/starweaver-gateway/src/catalog.rs:603-606 | A selected route is one that this meaning permits |
| GrantMeaning.RefusedIsNotPermitted | crates/starweaver-gateway/src/catalog.rs:186-211 | A plan is refused by the grants only if they do not permit the route of some entry of the group that passes every other filter |
| GrantMeaning.CandidateMeans | crates/starweaver-gateway/src/catalog.rs:530-607 | An eligible candidate is permitted, and one filtered by the grants is not |
| GrantMeaning.LegacyRouteIsCovered | crates/starweaver-gateway/src/catalog.rs:386-408 | For a tenant without active grants in closure form, a selected route has an active grant of the tenant for its endpoint and no other target, and every organization, project and principal it names is the actor's |
| GrantMeaning.LegacyCandidate | crates/starweaver-gateway/src/catalog.rs:386-408 | For such a tenant, a candidate that no grant covers is not eligible, and the grants do not filter one that some grant covers |
| Evidence.FilterEvidence.AddFilterReason | crates/starweaver-gateway/src/routing.rs:423-429 | Adds one to the entry of a reason or appends a first entry |
| Evidence.TallyCounts | crates/starweaver-gateway/src/routing.rs:423-429 | A summary has distinct reasons and positive counts, each reason's count is its multiplicity, and the total is the number of filtered candidates |
| Evidence.TallyKeepsOrder | crates/starweaver-gateway/src/routing.rs:423-429 | Entries keep their place: a later reason adds to its entry or starts a new one at the end |
| Planner.TryStickyRouteSelection | crates/starweaver-gateway/src/catalog.rs:259-309 | The sticky attempt computes the specified hit or miss and records evidence exactly for a filtered candidate |
| Planner.FirstEligibleRouteSelection | crates/starweaver-gateway/src/catalog.rs:311-340 | The scan selects the first eligible candidate and records, in order, the reasons of those before it |
| Planner.PlanBoundRoute | crates/starweaver-gateway/src/catalog.rs:165-211 | Sticky attempt then scan give the specified plan: outcome, selection and summary |
| Planner.PlanRuntimeRoute | crates/starweaver-gateway/src/catalog.rs:130-164 | Planning gives the specified plan or error: binding errors first, then repeated ids |
| RoutingLaws.EvidenceIsTrue | crates/starweaver-gateway/src/catalog.rs:530-607 | Every entry of a plan's evidence is true of a candidate of the bound group: that filter fails for it and none of the earlier of the fourteen does |
| RoutingLaws.SelectedRouteIsSound | crates/starweaver-gateway/src/catalog.rs:979-996 | A selected route is a connected path of active records of the catalog, from an alias the actor reaches to an endpoint that serves the protocol, can stream if asked to, is neither drained nor unhealthy nor blocked and has a usable credential, and the grants allow it; the selection carries those records' fields |
| RoutingLaws.OutcomeKind | crates/starweaver-gateway/src/catalog.rs:186-211 | Selected exactly when some candidate is eligible; denied by grants exactly when none is and some candidate was refused by grants; stickiness and order do not enter |
| RoutingLaws.StickyRefinesScan | crates/starweaver-gateway/src/catalog.rs:130-212 | With any affinity hash: the same error or kind of outcome as without one; a sticky hit is an eligible candidate of the current group on the remembered endpoint; otherwise the very route of the plain scan |
| BindingMeaning.MissReasonIsTrue | crates/starweaver-gateway/src/catalog.rs:259-309 | A selection that is no sticky hit says why the remembered route was not taken: its group changed, its target has no entry, its endpoint changed, or its foremost entry was filtered and by what; nothing if there was none, and a hit says nothing |
| RoutingLaws.NoGapWhenValid | crates/starweaver-gateway/src/catalog.rs:1151-1297 | In a valid catalog no candidate of a bound group is filtered for a missing or mismatched target, endpoint or credential |
| RoutingLaws.ValidationRulesOutGaps | crates/starweaver-gateway/src/catalog.rs:214-257 | In a valid catalog no plan's evidence names such a gap; a plan is not ready exactly when its alias is found, active and of the right protocol and the policy or group is inactive; a plan without a selection has evidence; the catalog itself is never at fault |
| RoutingLaws.EvidenceConserved | crates/starweaver-gateway/src/catalog.rs:301-338 | Each reason is counted as often as it filtered a candidate the scan passed over, plus once for the sticky candidate, and not at all on a hit, so the total is the number of filtered candidates; grant denial is the outcome exactly when nothing is selected and that reason occurs; the selection carries the plan's summary |
| RoutingOrder.PlainPlanIsMinimal | crates/starweaver-gateway/src/catalog.rs:139-149 | Without an affinity hash the selected route is that of an eligible candidate of lowest priority number, then greatest weight, then least target id |
| RoutingOrder.ResolveAliasMeans | crates/starweaver-gateway/src/catalog.rs:342-366 | With unique alias ids, resolution gives the one alias whose scope beats all others that reach the actor, not-found if none reaches, ambiguous otherwise |
| RoutingOrder.NarrowestAliasWins | crates/starweaver-gateway/src/catalog.rs:1508-1525 | A reaching alias names only boundaries of the actor, and the resolved one is strictly narrower than every other: project before organization before tenant |
| BindingMeaning.BindingMeans | crates/starweaver-gateway/src/catalog.rs:214-257 | With unique ids, over the fields of the aliases, policies and groups: what a request is bound to, and when exactly it is not found, ambiguous, of the wrong protocol or not ready |
| BindingMeaning.ResolvedAliasMeans | crates/starweaver-gateway/src/catalog.rs:342-366 | With unique ids: the name resolves to the visible alias that every other visible one is wider than; without one it is not found, or ambiguous if some alias is visible |
| BindingMeaning.RepeatedIdsAreRefused | crates/starweaver-gateway/src/catalog.rs:136-138 | A bound request is refused as an invalid catalog exactly when an endpoint, credential or target id repeats |
| RoutingOrder.OrderIndependent | crates/starweaver-gateway/src/catalog.rs:130-257 | With unique ids, permuting any of the eight lists leaves the route, or the error or kind of refusal, as it was when the route is settled; without a remembered target it always is |
| RoutingOrder.PlanOrderIff | crates/starweaver-gateway/src/catalog.rs:130-257 | For a request that binds to an alias, policy and group, with unique ids: the route or refusal is the same for every order of the lists exactly when the foremost entries for the remembered target agree on being active, or an active one is no hit, or the scan lands on that target anyway |
| OrderWitness.OrderChangesRoute | crates/starweaver-gateway/src/catalog.rs:139-149 | A valid catalog, listed in two orders, that selects two different targets for one request |
| RoutingOrder.StickyOrderIff | crates/starweaver-gateway/src/catalog.rs:278-308 | The sticky attempt is the same for every order of the entries exactly when the foremost entries for the remembered target agree on being active |
| Base.SortByStable | crates/starweaver-gateway/src/catalog.rs:144-149 | The sort keeps the order of entries that compare equal |
| Base.LeqMeans | crates/starweaver-gateway/src/catalog.rs:139-149 | Identifier order: a prefix comes first, otherwise the first character that differs decides |
| GrantEdits.DenyModeNeverMatters | crates/starweaver-gateway/src/catalog.rs:1480-1490 | Switching denies between self_only and deny_descendants leaves every plan and its evidence as it was |
| GrantEdits.DenyOnCandidate | crates/starweaver-gateway/src/catalog.rs:603-606 | Adding a deny never makes an ineligible candidate eligible, nor changes what an eligible one leads to |
| GrantEdits.DenyNeverOpensRoute | crates/starweaver-gateway/src/catalog.rs:368-384 | Adding a deny never turns a plan without a selection into one with a selection, and leaves errors alone |
| GrantEdits.AllowOnCandidate | crates/starweaver-gateway/src/catalog.rs:469-478 | Under the closure rule an added allow keeps a candidate eligible exactly when it does not shut its path out of the actor's project |
| GrantEdits.OrganizationAllowKeepsSelection | crates/starweaver-gateway/src/catalog.rs:440-451 | Under the closure rule an organization-scoped allow never costs a plan its selection |
| GrantEdits.FirstClosureGrantOnPlan | crates/starweaver-gateway/src/catalog.rs:374-384 | After the first grant in closure form a plan selects only for an alias that this grant allows with all its descendants for the actor's organization |
| HotState.KeySpacesNeverMeet | crates/starweaver-gateway/src/hot_state.rs:211-235 | Health, drain and sticky keys never meet, whatever the ids |
| HotState.KeyInjective | crates/starweaver-gateway/src/hot_state.rs:211-235 | Among places whose tenant, project and alias ids hold no colon and whose project is not "_" a key determines its place |
| HotState.UnsharedIff | crates/starweaver-gateway/src/hot_state.rs:211-235 | Among all places, no other one has the key of a place exactly when none of its ids holds a colon and a sticky mapping names a project other than "_" |
| HotState.EndpointKeyShapes | crates/starweaver-gateway/src/hot_state.rs:211-221 | The health and drain keys, literally, for one tenant and endpoint |
| HotState.StickyKeyShapes | crates/starweaver-gateway/src/hot_state.rs:223-235 | The sticky key, literally, for one tenant, alias and affinity, with and without a project |
| HotCache.HotStateCache.WriteExpiring | crates/starweaver-gateway/src/redis_hot_state.rs:110-157 | A write is stored exactly when it lands with a whole second of lifetime left; otherwise the older record stays |
| HotCache.WrittenIsFound | crates/starweaver-gateway/src/redis_hot_state.rs:110-157 | A write that lands with a second of life left is found at once under its config version; any other changes nothing |
| HotCache.HotStateCache.EndpointHealthState | crates/starweaver-gateway/src/redis_hot_state.rs:217-241 | The state of a fresh health record, unknown if there is none or the read fails |
| HotCache.HotStateCache.EndpointIsDrained | crates/starweaver-gateway/src/redis_hot_state.rs:243-265 | Drained exactly when the read succeeds and finds a fresh drain record |
| HotCache.HotStateCache.StickyRoute | crates/starweaver-gateway/src/redis_hot_state.rs:267-291 | A fresh sticky record, or none if there is none or the read fails |
| HotCache.CacheIsPlainMap | crates/starweaver-gateway/src/redis_hot_state.rs:293-342 | For ids the key format can tell apart, after any run of writes the entry under a key is the last write stored for that very tuple, or none |
| HotCache.ReadIsLastStored | crates/starweaver-gateway/src/redis_hot_state.rs:217-291 | For such ids, a read finds a record exactly when the last one stored for the tuple still lives, has the requested config version and expires after now; and it is that record |
| HotCache.FoundUntilLastSecond | crates/starweaver-gateway/src/redis_hot_state.rs:110-157 | For such ids, the last record stored for a tuple is found under its config version as long as a second of its life is left, and never once it has expired |
| HotCache.HealthIsLastStored | crates/starweaver-gateway/src/redis_hot_state.rs:217-241 | For such ids, after any run of writes a health read gives the state of the last health record stored for the tenant and endpoint while it is alive, of that version and unexpired, and unknown otherwise |
| HotCache.DrainedIffLive | crates/starweaver-gateway/src/redis_hot_state.rs:243-265 | For such ids, an endpoint is drained exactly while the last drain record stored for it is alive, of that version and unexpired |
| StickyMemory.StickyHitIff | crates/starweaver-gateway/src/catalog.rs:259-309 | For such ids, a plan over the cache is a sticky hit exactly when stickiness is asked for and on, the last mapping stored for that tenant, project, alias and affinity is alive, of that version and of the current group, and the foremost entry found for its target is eligible on its endpoint |
| StickyMemory.StickyHitIsLastStored | crates/starweaver-gateway/src/catalog.rs:959-977 | And then the route is that mapping's group, target and endpoint |
| StickyMemory.SelectedEndpointIsWell | crates/starweaver-gateway/src/catalog.rs:564-591 | For such ids, and an endpoint whose tenant id holds no colon: no selected endpoint has a live last stored drain, or a live last stored health record that is blocked or unhealthy |
| StickyMemory.HealthFilters | crates/starweaver-gateway/src/catalog.rs:564-591 | For such ids and endpoints, a live drain or a live blocked or unhealthy record makes a candidate ineligible, and a candidate is filtered for drain, blocked or unhealthy only by a live record that says so |
| Leases.LeaseStore.WriteBudgetLease | crates/starweaver-gateway/src/redis_hot_state.rs:159-172 | Key first, then hash; the second write is tried only after the first was done, and the call succeeds only if both were |
| Leases.LeaseStore.RecordRuntimeBudgetLease | crates/starweaver-gateway/src/redis_hot_state.rs:433-438 | Writes both copies as far as the writes go |
| Leases.LeaseStore.ReleaseRuntimeBudgetLease | crates/starweaver-gateway/src/redis_hot_state.rs:440-470 | Ends a lease whose key copy is reserved and hands it back only if both writes were done |
| Leases.LeaseStore.ExpireRuntimeBudgetLeases | crates/starweaver-gateway/src/redis_hot_state.rs:472-497 | Writes the end of every due lease of the tenant's hash as far as the writes go, whatever order it is read in, and returns exactly those with both writes done, once each, by ascending id |
| LeaseRuns.AtMostOnce | crates/starweaver-gateway/src/redis_hot_state.rs:433-497 | In every run with fresh ids, whatever writes fail and whether or not a failed write landed, a lease is handed back at most once |
| LeaseRuns.SweepLeavesAlone | crates/starweaver-gateway/src/redis_hot_state.rs:472-497 | A sweep of a tenant leaves both copies of a lease as they were and does not hand it back, unless the tenant's hash holds it as "reserved" with an expiry no later than now |
| LeaseRuns.SweepMeans | crates/starweaver-gateway/src/redis_hot_state.rs:484-493 | A sweep hands back exactly the leases whose time is over in that sense, if the hash is read and both writes of the lease are done, as "expired" at that moment |
| LeaseRuns.ReleaseMeans | crates/starweaver-gateway/src/redis_hot_state.rs:440-470 | In a store whose keys hold their own leases, a release hands back exactly its own lease, if the key is read and holds it as "reserved" and both writes are done, as "released" at that moment; every other lease is left alone |
| LeaseRuns.HandedBackAs | crates/starweaver-gateway/src/redis_hot_state.rs:433-497 | In every legal run a lease that is handed back was recorded before; a sweep hands it back for its tenant and no earlier than its expiry, as "expired" at that moment, a release as "released", and nothing else about it has changed |
| LeaseRuns.ExactlyOnceIff | crates/starweaver-gateway/src/redis_hot_state.rs:472-497 | Whatever failed before, after a failure-free sweep past its expiry a recorded lease was handed back exactly once if and only if its hash copy exists and no operation ended it with a last write that landed but was reported as failed |
| LeaseRuns.ExactlyOnceAfterSweep | crates/starweaver-gateway/src/redis_hot_state.rs:433-497 | Hence a fully recorded lease has then been handed back exactly once unless it was lost in that way, and it never is while failed writes have no effect |
| LeaseRuns.LandedFailureLosesLease | crates/starweaver-gateway/src/redis_hot_state.rs:458-469 | The smallest loss: a release whose second write landed but was reported as failed; no later operation hands the lease back |
| LeaseRuns.FaultlessRunsAgree | crates/starweaver-gateway/src/storage.rs:3130-3172 | While nothing fails, the two-copy store keeps the same leases and hands back the same ones as the in-memory store with one map |
| LeaseOverlap.AtMostOnceApart | crates/starweaver-gateway/src/redis_hot_state.rs:440-497 | However the single writes of records, releases and sweeps interleave and whatever fails, a lease is handed back at most once if no call takes it up while another has writes of it under way; other leases may overlap freely |
| LeaseOverlap.OverlapCanHandBackTwice | crates/starweaver-gateway/src/redis_hot_state.rs:440-497 | After any run without overlap on a lease, a call that takes it up while another has writes of it under way can be continued to a second hand-back, with no further overlap and no further failure |
| LeaseOverlap.ApartIff | crates/starweaver-gateway/src/redis_hot_state.rs:440-497 | After any run without overlap on a lease, it is handed back at most once in every continuation without overlap if and only if the next call keeps apart |
| LeaseOverlap.OverlapHandsBackTwice | crates/starweaver-gateway/src/redis_hot_state.rs:445-489 | For every reserved lease, a legal interleaved run without failures in which a release and a sweep both hand it back |
| LeaseOverlap.PairIsWrite | crates/starweaver-gateway/src/redis_hot_state.rs:159-172 | The two writes of a lease that nothing comes between are the write of a whole operation, with the same hand-back |
| LeaseOverlap.UndisturbedRelease | crates/starweaver-gateway/src/redis_hot_state.rs:440-470 | A release that nothing comes between is the release of whole-operation runs |
| LeaseOverlap.UndisturbedRecord | crates/starweaver-gateway/src/redis_hot_state.rs:433-438 | A recording that nothing comes between is that of whole-operation runs |
| LeaseOverlap.SweepTakesUp | crates/starweaver-gateway/src/redis_hot_state.rs:477-489 | A sweep takes up exactly the leases whose time is over in the tenant's hash, to end them as "expired" |
| Counters.CounterStore.IncrementRuntimeQuotaCounter | crates/starweaver-gateway/src/redis_hot_state.rs:350-375 | The new total, admitted while within the limit; a call reported as failed admits nothing, whether or not it landed |
| Counters.CounterStore.RuntimePolicyCounter | crates/starweaver-gateway/src/redis_hot_state.rs:377-392 | The stored value, never negative, and 0 when the read fails |
| Counters.CounterStore.AdjustRuntimePolicyCounter | crates/starweaver-gateway/src/redis_hot_state.rs:394-408 | The clamped sum is stored if the call lands and read if it is not reported as failed, else 0 is read; the key is kept exactly for positive values and other keys are untouched |
| Counters.AdjustClosedForm | crates/starweaver-gateway/src/redis_hot_state.rs:24-32 | After any non-empty sequence of deltas from a value that is not negative: the greater of the plain sum and the greatest sum of a proper suffix, and never negative |
| Counters.AdjustIsPlainSumIff | crates/starweaver-gateway/src/redis_hot_state.rs:24-32 | From a value that is not negative, the result is the plain sum exactly when no running total is negative |
| Counters.CounterIsAllocator | crates/starweaver-gateway/src/service.rs:16331-16356 | In every interleaving of takes and give-backs of amounts that are not negative, whatever fails: the counter holds what is booked and what has leaked but for amounts dropped by failed takes, and admitted amounts pass the limit by at most those admitted on a failed reading; if nothing was dropped the books are exact and no give-back is clamped |
| Counters.SoundTakesKeepTheLimit | crates/starweaver-gateway/src/service.rs:16331-16356 | If no reservation call fails, whatever give-backs and increments fail, the admitted amounts stay within the limit and the surplus on the counter is exactly what leaked |
| Counters.BooksBalanceIff | crates/starweaver-gateway/src/redis_hot_state.rs:394-408 | The books balance all the way through a run exactly when no reservation of a positive amount failed without effect |
| Counters.LimitHoldsIff | crates/starweaver-gateway/src/service.rs:16339-16350 | In every run, whatever fails, the admitted amounts stay within the limit all the way through exactly when no call is admitted without room for it, be it a failed call that reads 0 or a call that reads a counter which misses an amount dropped before |
| Counters.FailedReserve | crates/starweaver-gateway/src/redis_hot_state.rs:398-402 | A failed reservation, fate by fate: balanced books survive it exactly when it landed or its amount is zero; the limit, if it held, exactly when there was room for it or the limit is negative |
| Counters.FailedTakePassesLimit | crates/starweaver-gateway/src/redis_hot_state.rs:398-402 | For every limit that is not negative, a run that passes it: all of it taken, and one more reservation whose call fails |
| Counters.DroppedTakePassesLimit | crates/starweaver-gateway/src/redis_hot_state.rs:398-402 | For every limit that is not negative, a run in which a call that is done admits the whole limit a second time, because the first amount never reached the counter |
| BudgetBooks.CounterIsOutstandingLeases | crates/starweaver-gateway/src/service.rs:15889-15940 | In every run of takes, refunds, recordings, releases and sweeps with amounts that are not negative, whatever counter and lease calls fail: a counter holds the amounts of the reservations that are out and those whose give-back did not land, but for takes that did not land; exactly that when every take landed |
| BudgetBooks.SweepDrainsCounter | crates/starweaver-gateway/src/service.rs:16449-16458 | After a failure-free sweep past the expiry of a counter's reservations it holds exactly the amounts whose lease has no hash copy or was lost and those that leaked, if every take landed; so it is zero if and only if nothing leaked and every positive reservation has a hash copy and was not lost |
| ConfigStore.ConfigSnapshotStore.LatestPublishedSnapshotForTenant | crates/starweaver-gateway/src/storage.rs:2800-2816 | The snapshot the publication pointer names, or without a pointer the last one of greatest version |
| ConfigStore.ConfigSnapshotStore.PublishDocument | crates/starweaver-gateway/src/config.rs:116-141 | Stores and returns the document under the next version of the tenant and moves the publication pointer |
| ConfigStore.ConfigSnapshotStore.PublishConfigSnapshot | crates/starweaver-gateway/src/config.rs:64-77 | Publishes a valid payload as a document without rollback pointer, or refuses and changes nothing |
| ConfigStore.ConfigSnapshotStore.RollbackConfigSnapshot | crates/starweaver-gateway/src/config.rs:80-101 | Republishes the source's document with a pointer to it, or refuses a missing or foreign source and changes nothing |
| ConfigStore.RunsAreSound | crates/starweaver-gateway/src/config.rs:64-141 | In every run with fresh ids each tenant's versions are exactly 1..n in publication order, and every rollback pointer names an earlier snapshot of the same tenant, of strictly lower version and with the same document but for the pointer |
| ConfigStore.EveryPayloadWasValidated | crates/starweaver-gateway/src/config.rs:80-114 | In every run with fresh ids, following the pointers ends at a direct publication of the same tenant with the same payload and resource versions, so every stored payload passed validation |
| ConfigStore.StepMeans | crates/starweaver-gateway/src/config.rs:64-141 | With unique snapshot ids: a publication goes through exactly when its policy bundle is absent or a string that parses, a rollback exactly when its source is a snapshot of the tenant; the answer and the added snapshot are what was asked for, and a refusal leaves the store as it is and says why |
| ConfigStore.ContentWasPublished | crates/starweaver-gateway/src/config.rs:64-141 | In every run with fresh ids, following the pointers from any stored snapshot ends at one whose payload, resource versions, tenant, author, time and id are those of one publication of the run, with the payload and resource versions of the snapshot it started from |
| ConfigStore.MadeByOperation | crates/starweaver-gateway/src/config.rs:116-141 | In every such run each stored snapshot was made by an operation of the run: its id, tenant, author, time and content are what that operation asked for |
| ConfigStore.OperationLeaves | crates/starweaver-gateway/src/config.rs:116-141 | Conversely every operation that goes through leaves such a snapshot in the store, for good |
| ConfigStore.LatestIsHighest | crates/starweaver-gateway/src/storage.rs:2800-2816 | In every run with fresh ids the latest snapshot of a tenant is a stored one of that tenant with its highest version, and there is none only when the tenant has no snapshot |
| ConfigStore.MaxByVersionMeans | crates/starweaver-gateway/src/storage.rs:2807-2815 | Without a publication pointer: a snapshot of the tenant whose version no other exceeds, the last of those, or none if the tenant has none |
| Membership.MembershipStore.UpdateOrganizationMemberStatus | crates/starweaver-platform/src/membership.rs:295-313 | Sets the status at the next version if the expected version matches; otherwise an error and no change |
| Membership.MembershipStore.UpdateProjectMemberStatus | crates/starweaver-platform/src/membership.rs:321-339 | The same for project memberships |
| Membership.MembershipStore.UpsertOrganizationMember | crates/starweaver-platform/src/membership.rs:369-413 | Finds the seat or inserts, as specified, with the final check deciding the answer only |
| Membership.MembershipStore.UpsertProjectMember | crates/starweaver-platform/src/membership.rs:441-495 | The same for project memberships, with the parent id |
| Membership.MembershipStore.CascadeProjectMemberships | crates/starweaver-platform/src/membership.rs:499-532 | Lowers exactly the child memberships above the given status, each at the next version, and returns how many |
| Membership.CascadesMeet | crates/starweaver-platform/src/membership.rs:508-531 | After any sequence of cascades a child has the lowest of its old status and the given ones, a new version exactly if that changed it, and nothing else differs |
| Membership.CascadesCommute | crates/starweaver-platform/src/membership.rs:499-532 | The order and repetition of cascades do not matter to the final statuses |
| Membership.CascadeIdempotent | crates/starweaver-platform/src/membership.rs:499-532 | Repeating a cascade changes nothing and so returns 0 |
| Membership.RunsKeepSeats | crates/starweaver-platform/src/membership.rs:369-495 | After any run there is at most one organization membership per tenant, organization and principal and one project membership per project and principal |
| Membership.SeatsAreUnique | crates/starweaver-platform/src/membership.rs:369-495 | The same over the fields: two organization memberships differ in tenant, organization or principal, two project memberships in project or principal |
| Membership.VersionCountsChanges | crates/starweaver-platform/src/membership.rs:295-532 | In every run whose inserts bring unused ids, the version of a record is one more than the number of times it was changed |
| Membership.NoLostUpdate | crates/starweaver-platform/src/membership.rs:301-339 | In every run whose inserts bring unused ids, of two status updates of one record with the same expected version at most one succeeds |
| Membership.UpdateMeans | crates/starweaver-platform/src/membership.rs:295-339 | A status update succeeds exactly when the id is stored at the expected version; the stored record and the answer then have the requested status at the next version and are otherwise as before, and no other record changes; a missing id and a stale version are told apart |
| Membership.UpdatedStatusHolds | crates/starweaver-platform/src/membership.rs:301-339 | In every run whose inserts bring unused ids, from a successful status update on the record has that status until an operation changes it again, which shows in its version |
| Membership.UpsertIdempotent | crates/starweaver-platform/src/membership.rs:369-495 | With one record per seat, repeating a successful upsert changes nothing and gives the same answer |
| Membership.UpsertMeans | crates/starweaver-platform/src/membership.rs:369-495 | With one record per seat: an upsert of a taken seat leaves its record active with the requested kind and parent, a version further exactly if something changed, and succeeds exactly if nothing is wrong with that; an upsert of a free seat inserts the record as requested or refuses it |
| Membership.ValidateMeans | crates/starweaver-platform/src/membership.rs:540-634 | A record is refused exactly when something is wrong with it, with an error that is about it |
| Membership.OneIdPerSeat | crates/starweaver-platform/src/membership.rs:369-495 | In every run whose inserts bring unused ids, all successful upserts of one seat answer with the same record id, at versions that never fall, whatever is suspended, removed or cascaded in between |
| Membership.UpsertKeepsValidIff | crates/starweaver-platform/src/membership.rs:382-411 | Stored records stay well formed exactly when no record has the seat or the upsert's kind and parent are well formed |
| Membership.BadKindIsStored | crates/starweaver-platform/src/membership.rs:382-411 | For every valid membership and unknown kind, the run that upserts the one and then the other stores an ill-formed record |
| Membership.IllFormedMembershipRun | crates/starweaver-platform/src/membership.rs:382-411 | Such a run, written out |
| Membership.RunsKeepValid | crates/starweaver-platform/src/membership.rs:540-607 | In runs whose upserts have well-formed kinds and parents every stored record is well formed |
| Invitations.InvitationStore.CreateOrganizationInvitation | crates/starweaver-platform/src/invitation.rs:209-216 | Stores a valid record, refuses an invalid one |
| Invitations.InvitationStore.RevokeOrganizationInvitation | crates/starweaver-platform/src/invitation.rs:268-290 | Revokes a pending invitation at the expected version, or says why not and changes nothing |
| Invitations.InvitationStore.AcceptOrganizationInvitation | crates/starweaver-platform/src/invitation.rs:298-348 | Accepts for the invited principal before expiry, or says why not and changes nothing |
| Invitations.History | crates/starweaver-platform/src/invitation.rs:209-348 | In every run with fresh ids each stored invitation is a valid one as it was created, ended by at most one call, which was at its version or by the invited principal before expiry; nothing else about it has changed |
| Invitations.EndedStays | crates/starweaver-platform/src/invitation.rs:281-338 | With fresh ids an invitation that is no longer pending never changes again |
| Invitations.AtMostOneEnding | crates/starweaver-platform/src/invitation.rs:268-348 | In every run with fresh ids at most one accept or revoke call succeeds for an invitation |
| Invitations.EntitledAcceptSucceeds | crates/starweaver-platform/src/invitation.rs:298-348 | In every run with fresh ids, a well-formed accept of an invitation created valid and pending succeeds exactly when it is made by the invited principal before expiry and no call has ended the invitation yet |
| Invitations.AcceptIff | crates/starweaver-platform/src/invitation.rs:298-348 | An accept succeeds exactly when the request is well formed and the invitation is stored, pending, unexpired and for that principal; the error of a well-formed request says which of these fails first |
| Invitations.RevokeIff | crates/starweaver-platform/src/invitation.rs:268-290 | A revoke succeeds exactly when the invitation is stored at the expected version and pending; otherwise the error says which fails first |
| Invitations.ValidateMeans | crates/starweaver-platform/src/invitation.rs:366-435 | A record is refused exactly when something is wrong with it, with an error that is about it |
| Invitations.StepKeepsValidIff | crates/starweaver-platform/src/invitation.rs:284-290 | Stored invitations stay valid under every call except a successful revoke at a time that is not positive |
| Invitations.BadRevokeIsStored | crates/starweaver-platform/src/invitation.rs:284-290 | For every valid pending invitation and time that is not positive, the run that creates and revokes it stores an invalid record |
| Invitations.InvalidInvitationRun | crates/starweaver-platform/src/invitation.rs:284-290 | Such a run, written out |
| Invitations.RunsKeepValid | crates/starweaver-platform/src/invitation.rs:366-435 | In runs whose revokes have positive timestamps every stored invitation is valid |
| Text.TrimMeans | crates/starweaver-platform/src/invitation.rs:390-393 | Trimming takes whitespace off both ends and stops at the first and last character that is none |
| Text.WhitespaceMeans | crates/starweaver-platform/src/invitation.rs:390-393 | The whitespace characters, one by one |
| Identities.IdentityStore.UpsertExternalIdentity | crates/starweaver-platform/src/identity.rs:435-469 | Links, relinks or refuses, as specified |
| Identities.IdentityStore.UnlinkExternalIdentity | crates/starweaver-platform/src/identity.rs:508-521 | Marks a known record deleted |
| Identities.OneIdPerSubject | crates/starweaver-platform/src/identity.rs:435-469 | In every run whose inserts bring unused ids, all successful upserts of one provider subject answer with the same record id and principal, whatever is unlinked in between |
| Identities.DeletedUntilUpserted | crates/starweaver-platform/src/identity.rs:508-521 | In every run whose inserts bring unused ids, an unlinked record stays deleted and otherwise as it was until its subject is upserted again |
| Identities.UnlinkMeans | crates/starweaver-platform/src/identity.rs:508-521 | In a store of valid records, one per subject and under their own ids, an unlink of a known id succeeds, deletes that record and changes nothing else; an unknown id is refused |
| Identities.UpsertSucceedsIff | crates/starweaver-platform/src/identity.rs:435-469 | In such a store, an upsert succeeds exactly when nothing is wrong with it and the subject is free or the principal's own; a refusal says what is wrong or that the principal differs |
| Identities.SubjectsAreUnique | crates/starweaver-platform/src/identity.rs:439-446 | In every run two records differ in tenant, provider or subject |
| Identities.ValidateMeans | crates/starweaver-platform/src/identity.rs:984-1025 | A record is refused exactly when something is wrong with it, with an error that is about it |
| Identities.RunsAreSound | crates/starweaver-platform/src/identity.rs:984-1025 | After any run every record is valid, sits under its own id and shares its tenant, provider and subject with no other |
| Identities.LinksNeverMove | crates/starweaver-platform/src/identity.rs:435-521 | With unused ids for inserts a record keeps its subject and principal through every unlink and relink |
| Identities.MismatchIsRefused | crates/starweaver-platform/src/identity.rs:454-456 | In every run whose inserts bring unused ids, a valid upsert of a linked subject for another principal is refused and leaves the store unchanged |
| PathEncoding.PercentEncodePathSegment | crates/starweaver-gateway/src/runtime.rs:462-481 | The loop computes the encoding of the whole byte string |
| PathEncoding.EncodingIsExact | crates/starweaver-gateway/src/runtime.rs:462-481 | Encoding is a bijection between byte strings and texts of unreserved characters (section 2.3 of RFC 3986) and uppercase triplets (section 2.1) of other bytes |
| PathEncoding.UnreservedMeans | crates/starweaver-gateway/src/runtime.rs:465 | The unreserved characters, one by one |
| PathEncoding.ModelIdRecoverable | crates/starweaver-gateway/src/runtime.rs:428-442 | The upstream model id is recoverable from the Gemini path, and adds no '/', ':', '?' or '#' of its own to it |
| PathEncoding.FixedPaths | crates/starweaver-gateway/src/runtime.rs:428-442 | Only the Gemini path depends on the model id; the others are fixed |

## Left out

- Integer width: counters, weights, versions and evidence counts are unbounded; 64-bit and 32-bit overflow and Lua's 53-bit numbers are not modelled.
- Counters.CounterIsAllocator: has one fixed limit; the ledger part of a budget limit, which moves between calls, is not modelled. A request may give back what it took with an increment, which no caller in the source does.
- BudgetBooks.CounterIsOutstandingLeases: leaves open which reservations are admitted; the limit is in `Counters.CounterIsAllocator`.
- LeaseOverlap.AtMostOnceApart: lets the writes of one sweep come in any order, where the source takes one lease after the other.
- Planner.PlanRuntimeRoute: sorts candidates as a sequence with an insertion sort, where the source sorts a vector in place with the library's stable sort.
- HotCache.HotStateCache.WriteExpiring: gateway and cache server read one clock.
- Stores are maps that methods replace; locks and aliasing are not modelled, and a call to an in-memory store is atomic. The tenant hashes of leases are one map keyed by tenant and lease id.
- The Redis client, its availability flag and JSON encoding: reads and writes that may fail.
- The local loss-allowance counters, which repeat the counter model on another map.
- `from_payload`, `select_runtime_route` and `plan_runtime_route`, thin wrappers around validation and planning.
- Snapshot checksums, invalidation events and worker reloads of the config store.
- The `record_*` methods of the membership and identity stores, which write a record by id without looking at others.
- Listing methods, token hashing, OIDC login, sessions, credentials, audit, action and role tables, HTTP, SQL stores and migrations.
