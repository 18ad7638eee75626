/** Publication and rollback of config snapshots over the in-memory snapshot store. */
module ConfigStore {
  import opened Base

  /** The `cedar_policy_bundle` entry of a payload; the rest of the payload is opaque here. */
  datatype PolicyBundle = NoBundle | NotAString | BundleText(text: string)

  datatype Payload = Payload(bundle: PolicyBundle, rest: string)

  datatype ResourceVersion = ResourceVersion(resourceKind: string, resourceId: string, version: int)

  datatype Document = Document(
    schema: string, resourceVersions: seq<ResourceVersion>, payload: Payload, rollbackOf: Option<string>)

  datatype Snapshot = Snapshot(
    id: string, tenantId: string, version: int, document: Document, createdBy: string, publishedAt: int)

  datatype ConfigError = BadPayload | SnapshotNotFound(id: string) | SnapshotTenantMismatch

  const SCHEMA := "gateway.config_snapshot.v1"

  predicate ValidPayload(p: Payload, cedarOk: string -> bool)
  {
    match p.bundle
    case NoBundle => true
    case NotAString => false
    case BundleText(text) => cedarOk(text)
  }

  // ---------- the store on values ----------

  datatype Store = Store(snapshots: seq<Snapshot>, publications: map<string, string>)

  datatype Op =
    | Publish(tenantId: string, resourceVersions: seq<ResourceVersion>, payload: Payload, createdBy: string,
        now: int, newId: string)
    | Rollback(tenantId: string, sourceId: string, createdBy: string, now: int, newId: string)

  function FindSnapshot(snapshots: seq<Snapshot>, id: string): (r: Option<Snapshot>)
    ensures r.Some? ==> r.value in snapshots && r.value.id == id
    ensures r.None? ==> forall s :: s in snapshots ==> s.id != id
  {
    if snapshots == [] then None
    else if snapshots[0].id == id then Some(snapshots[0])
    else FindSnapshot(snapshots[1..], id)
  }

  /** The last snapshot of a tenant among those with its greatest version. */
  ghost function MaxByVersion(snapshots: seq<Snapshot>, tenantId: string): Option<Snapshot>
  {
    if snapshots == [] then None
    else
      var best, s := MaxByVersion(snapshots[..|snapshots| - 1], tenantId), snapshots[|snapshots| - 1];
      if s.tenantId == tenantId && (best.None? || s.version >= best.value.version) then Some(s) else best
  }

  ghost function Latest(s: Store, tenantId: string): Option<Snapshot>
  {
    if tenantId in s.publications then FindSnapshot(s.snapshots, s.publications[tenantId])
    else MaxByVersion(s.snapshots, tenantId)
  }

  ghost function NextVersion(s: Store, tenantId: string): int
  {
    match Latest(s, tenantId) case None => 1 case Some(latest) => latest.version + 1
  }

  ghost function Inserted(s: Store, snapshot: Snapshot): Store
  {
    Store(s.snapshots + [snapshot], s.publications[snapshot.tenantId := snapshot.id])
  }

  ghost function Step(s: Store, op: Op, cedarOk: string -> bool): (Store, Result<Snapshot, ConfigError>)
  {
    match op
    case Publish(t, versions, payload, author, now, id) =>
      if !ValidPayload(payload, cedarOk) then (s, Err(BadPayload))
      else
        var snapshot := Snapshot(id, t, NextVersion(s, t), Document(SCHEMA, versions, payload, None), author, now);
        (Inserted(s, snapshot), Ok(snapshot))
    case Rollback(t, sourceId, author, now, id) =>
      match FindSnapshot(s.snapshots, sourceId)
      case None => (s, Err(SnapshotNotFound(sourceId)))
      case Some(source) =>
        if source.tenantId != t then (s, Err(SnapshotTenantMismatch))
        else
          var document := source.document.(rollbackOf := Some(sourceId));
          var snapshot := Snapshot(id, t, NextVersion(s, t), document, author, now);
          (Inserted(s, snapshot), Ok(snapshot))
  }

  // ---------- the store ----------

  class ConfigSnapshotStore {
    var snapshots: seq<Snapshot>
    var publications: map<string, string>
    const cedarOk: string -> bool

    constructor (cedarOk: string -> bool)
      ensures State() == Store([], map[]) && this.cedarOk == cedarOk
    {
      snapshots, publications := [], map[];
      this.cedarOk := cedarOk;
    }

    ghost function State(): Store
      reads this
    {
      Store(snapshots, publications)
    }

    method LatestPublishedSnapshotForTenant(tenantId: string) returns (latest: Option<Snapshot>)
      ensures latest == Latest(State(), tenantId)
    {
      if tenantId in publications { return FindSnapshot(snapshots, publications[tenantId]); }
      latest := None;
      for i := 0 to |snapshots|
        invariant latest == MaxByVersion(snapshots[..i], tenantId)
      {
        assert snapshots[..i + 1][..i] == snapshots[..i];
        var s := snapshots[i];
        if s.tenantId == tenantId && (latest.None? || s.version >= latest.value.version) { latest := Some(s); }
      }
      assert snapshots[..|snapshots|] == snapshots;
    }

    method InsertConfigSnapshot(snapshot: Snapshot)
      modifies this
      ensures State() == Inserted(old(State()), snapshot)
    {
      snapshots := snapshots + [snapshot];
      publications := publications[snapshot.tenantId := snapshot.id];
    }

    method PublishDocument(tenantId: string, document: Document, createdBy: string, now: int, newId: string)
      returns (snapshot: Snapshot)
      modifies this
      ensures snapshot == Snapshot(newId, tenantId, NextVersion(old(State()), tenantId), document, createdBy, now)
      ensures State() == Inserted(old(State()), snapshot)
    {
      var latest := LatestPublishedSnapshotForTenant(tenantId);
      var version := if latest.None? then 1 else latest.value.version + 1;
      snapshot := Snapshot(newId, tenantId, version, document, createdBy, now);
      InsertConfigSnapshot(snapshot);
    }

    method PublishConfigSnapshot(tenantId: string, resourceVersions: seq<ResourceVersion>, payload: Payload,
                                 createdBy: string, now: int, newId: string) returns (r: Result<Snapshot, ConfigError>)
      modifies this
      ensures var op := Publish(tenantId, resourceVersions, payload, createdBy, now, newId);
              (State(), r) == Step(old(State()), op, cedarOk)
    {
      if !ValidPayload(payload, cedarOk) { return Err(BadPayload); }
      var document := Document(SCHEMA, resourceVersions, payload, None);
      var snapshot := PublishDocument(tenantId, document, createdBy, now, newId);
      return Ok(snapshot);
    }

    method RollbackConfigSnapshot(tenantId: string, sourceId: string, createdBy: string, now: int, newId: string)
      returns (r: Result<Snapshot, ConfigError>)
      modifies this
      ensures (State(), r) == Step(old(State()), Rollback(tenantId, sourceId, createdBy, now, newId), cedarOk)
    {
      var source := FindSnapshot(snapshots, sourceId);
      if source.None? { return Err(SnapshotNotFound(sourceId)); }
      if source.value.tenantId != tenantId { return Err(SnapshotTenantMismatch); }
      var document := source.value.document.(rollbackOf := Some(sourceId));
      var snapshot := PublishDocument(tenantId, document, createdBy, now, newId);
      return Ok(snapshot);
    }
  }

  // ---------- runs ----------

  ghost function Run(ops: seq<Op>, cedarOk: string -> bool): Store
  {
    if ops == [] then Store([], map[]) else Step(Run(ops[..|ops| - 1], cedarOk), ops[|ops| - 1], cedarOk).0
  }

  /** Every operation brings a snapshot id that is not in the store yet. */
  ghost predicate FreshIds(ops: seq<Op>, cedarOk: string -> bool)
  {
    ops != [] ==>
      && FreshIds(ops[..|ops| - 1], cedarOk)
      && forall s :: s in Run(ops[..|ops| - 1], cedarOk).snapshots ==> s.id != ops[|ops| - 1].newId
  }

  /** Versions of one tenant's snapshots, in publication order. */
  ghost function VersionsOf(snapshots: seq<Snapshot>, tenantId: string): seq<int>
  {
    if snapshots == [] then []
    else
      var s := snapshots[|snapshots| - 1];
      VersionsOf(snapshots[..|snapshots| - 1], tenantId) + if s.tenantId == tenantId then [s.version] else []
  }

  ghost predicate OneToN(versions: seq<int>)
  {
    forall k :: 0 <= k < |versions| ==> versions[k] == k + 1
  }

  ghost predicate UniqueSnapshotIds(snapshots: seq<Snapshot>)
  {
    forall i, j :: 0 <= i < j < |snapshots| ==> snapshots[i].id != snapshots[j].id
  }

  /** Snapshot `i` was rolled back to snapshot `j`. */
  ghost predicate RollsBackTo(snapshots: seq<Snapshot>, i: nat, j: nat)
  {
    && j < i < |snapshots|
    && snapshots[i].document == snapshots[j].document.(rollbackOf := Some(snapshots[j].id))
    && snapshots[i].tenantId == snapshots[j].tenantId
    && snapshots[j].version < snapshots[i].version
  }

  ghost predicate Sourced(snapshots: seq<Snapshot>, i: nat, cedarOk: string -> bool)
    requires i < |snapshots|
  {
    if snapshots[i].document.rollbackOf.None? then ValidPayload(snapshots[i].document.payload, cedarOk)
    else exists j :: RollsBackTo(snapshots, i, j)
  }

  ghost predicate Ordered(s: Store, tenantId: string)
  {
    var versions := VersionsOf(s.snapshots, tenantId);
    && OneToN(versions)
    && (forall i :: 0 <= i < |s.snapshots| && s.snapshots[i].tenantId == tenantId ==>
          1 <= s.snapshots[i].version <= |versions|)
    && if versions == []
       then && tenantId !in s.publications
            && forall i :: 0 <= i < |s.snapshots| ==> s.snapshots[i].tenantId != tenantId
       else && tenantId in s.publications
            && exists i :: 0 <= i < |s.snapshots| && s.snapshots[i].id == s.publications[tenantId]
                           && s.snapshots[i].tenantId == tenantId && s.snapshots[i].version == |versions|
  }

  lemma FindUnique(snapshots: seq<Snapshot>, i: nat)
    requires UniqueSnapshotIds(snapshots) && i < |snapshots|
    ensures FindSnapshot(snapshots, snapshots[i].id) == Some(snapshots[i])
  {
    var r := FindSnapshot(snapshots, snapshots[i].id);
    assert snapshots[i] in snapshots;
    var j :| 0 <= j < |snapshots| && snapshots[j] == r.value;
  }

  lemma {:induction false} NoneOfTenant(snapshots: seq<Snapshot>, tenantId: string)
    requires forall i :: 0 <= i < |snapshots| ==> snapshots[i].tenantId != tenantId
    ensures MaxByVersion(snapshots, tenantId) == None
  {
    if snapshots == [] {
    } else {
      NoneOfTenant(snapshots[..|snapshots| - 1], tenantId);
    }
  }

  /** The next version is one more than the number of snapshots the tenant has. */
  lemma NextIsCount(s: Store, tenantId: string)
    requires UniqueSnapshotIds(s.snapshots) && Ordered(s, tenantId)
    ensures NextVersion(s, tenantId) == |VersionsOf(s.snapshots, tenantId)| + 1
    ensures Latest(s, tenantId).Some? ==> Latest(s, tenantId).value.tenantId == tenantId
  {
    if VersionsOf(s.snapshots, tenantId) == [] {
      NoneOfTenant(s.snapshots, tenantId);
    } else {
      var i :| 0 <= i < |s.snapshots| && s.snapshots[i].id == s.publications[tenantId]
               && s.snapshots[i].tenantId == tenantId && s.snapshots[i].version == |VersionsOf(s.snapshots, tenantId)|;
      FindUnique(s.snapshots, i);
    }
  }

  lemma InsertOrdered(s: Store, snapshot: Snapshot, tenantId: string)
    requires Ordered(s, tenantId)
    requires snapshot.tenantId == tenantId ==> snapshot.version == |VersionsOf(s.snapshots, tenantId)| + 1
    ensures Ordered(Inserted(s, snapshot), tenantId)
  {
    var s' := Inserted(s, snapshot);
    assert s'.snapshots[..|s'.snapshots| - 1] == s.snapshots;
    var n := |s.snapshots|;
    if snapshot.tenantId == tenantId {
      assert s'.snapshots[n] == snapshot;
    } else if VersionsOf(s.snapshots, tenantId) != [] {
      var i :| 0 <= i < |s.snapshots| && s.snapshots[i].id == s.publications[tenantId]
               && s.snapshots[i].tenantId == tenantId && s.snapshots[i].version == |VersionsOf(s.snapshots, tenantId)|;
      assert s'.snapshots[i] == s.snapshots[i];
    }
  }

  lemma InsertSourced(s: Store, snapshot: Snapshot, i: nat, cedarOk: string -> bool)
    requires i < |s.snapshots| && Sourced(s.snapshots, i, cedarOk)
    ensures Sourced(Inserted(s, snapshot).snapshots, i, cedarOk)
  {
    if s.snapshots[i].document.rollbackOf.Some? {
      var j :| RollsBackTo(s.snapshots, i, j);
      assert RollsBackTo(Inserted(s, snapshot).snapshots, i, j);
    }
  }

  ghost predicate Sound(s: Store, cedarOk: string -> bool)
  {
    && UniqueSnapshotIds(s.snapshots)
    && (forall t :: Ordered(s, t))
    && (forall i :: 0 <= i < |s.snapshots| ==> Sourced(s.snapshots, i, cedarOk))
  }

  lemma InsertSound(s: Store, snapshot: Snapshot, cedarOk: string -> bool)
    requires Sound(s, cedarOk)
    requires forall x :: x in s.snapshots ==> x.id != snapshot.id
    requires snapshot.version == NextVersion(s, snapshot.tenantId)
    requires Sourced(s.snapshots + [snapshot], |s.snapshots|, cedarOk)
    ensures Sound(Inserted(s, snapshot), cedarOk)
  {
    var s' := Inserted(s, snapshot);
    forall t ensures Ordered(s', t) {
      NextIsCount(s, t);
      InsertOrdered(s, snapshot, t);
    }
    forall i | 0 <= i < |s'.snapshots| ensures Sourced(s'.snapshots, i, cedarOk) {
      if i < |s.snapshots| { InsertSourced(s, snapshot, i, cedarOk); }
    }
  }

  lemma RollbackSourced(s: Store, snapshot: Snapshot, sourceId: string, cedarOk: string -> bool)
    requires Sound(s, cedarOk) && FindSnapshot(s.snapshots, sourceId).Some?
    requires var source := FindSnapshot(s.snapshots, sourceId).value;
             && snapshot.document == source.document.(rollbackOf := Some(sourceId))
             && snapshot.tenantId == source.tenantId && snapshot.version == NextVersion(s, source.tenantId)
    ensures Sourced(s.snapshots + [snapshot], |s.snapshots|, cedarOk)
  {
    var source := FindSnapshot(s.snapshots, sourceId).value;
    var j :| 0 <= j < |s.snapshots| && s.snapshots[j] == source;
    assert Ordered(s, source.tenantId);
    NextIsCount(s, source.tenantId);
    assert RollsBackTo(s.snapshots + [snapshot], |s.snapshots|, j);
  }

  lemma StepSound(s: Store, op: Op, cedarOk: string -> bool)
    requires Sound(s, cedarOk) && forall x :: x in s.snapshots ==> x.id != op.newId
    ensures Sound(Step(s, op, cedarOk).0, cedarOk)
  {
    var (s', r) := Step(s, op, cedarOk);
    if r.Ok? {
      if op.Rollback? { RollbackSourced(s, r.value, op.sourceId, cedarOk); }
      InsertSound(s, r.value, cedarOk);
    }
  }

  /** In every run with fresh snapshot ids, each tenant's versions are exactly 1..n in publication order, and
      every rollback pointer names a strictly lower version of the same tenant with the same content. */
  lemma {:induction false} RunsAreSound(ops: seq<Op>, cedarOk: string -> bool)
    requires FreshIds(ops, cedarOk)
    ensures Sound(Run(ops, cedarOk), cedarOk)
  {
    if ops == [] {
    } else {
      var init := ops[..|ops| - 1];
      RunsAreSound(init, cedarOk);
      StepSound(Run(init, cedarOk), ops[|ops| - 1], cedarOk);
    }
  }

  /** Where following the rollback pointers from snapshot `i` ends. */
  ghost function Root(snapshots: seq<Snapshot>, i: nat): (k: nat)
    requires i < |snapshots|
    ensures k <= i
    decreases i
  {
    if snapshots[i].document.rollbackOf.Some? && exists j :: RollsBackTo(snapshots, i, j)
    then var j :| RollsBackTo(snapshots, i, j); Root(snapshots, j)
    else i
  }

  lemma {:induction false} RootIsPublication(snapshots: seq<Snapshot>, i: nat, cedarOk: string -> bool)
    requires i < |snapshots| && forall k :: 0 <= k < |snapshots| ==> Sourced(snapshots, k, cedarOk)
    ensures var root := snapshots[Root(snapshots, i)];
            && root.document.rollbackOf.None? && ValidPayload(root.document.payload, cedarOk)
            && root.tenantId == snapshots[i].tenantId && root.version <= snapshots[i].version
            && snapshots[i].document == root.document.(rollbackOf := snapshots[i].document.rollbackOf)
    decreases i
  {
    if snapshots[i].document.rollbackOf.Some? {
      assert Sourced(snapshots, i, cedarOk);
      var j :| RollsBackTo(snapshots, i, j) && Root(snapshots, i) == Root(snapshots, j);
      RootIsPublication(snapshots, j, cedarOk);
    } else {
      assert Sourced(snapshots, i, cedarOk);
    }
  }

  /** Following the pointers always ends at a direct publication of the same tenant with the same payload and
      resource versions; so every stored payload passed validation, although rollback does not check it again. */
  lemma EveryPayloadWasValidated(ops: seq<Op>, cedarOk: string -> bool, i: nat)
    requires FreshIds(ops, cedarOk) && i < |Run(ops, cedarOk).snapshots|
    ensures var snapshots := Run(ops, cedarOk).snapshots;
            var root := snapshots[Root(snapshots, i)];
            && root.document.rollbackOf.None? && root.tenantId == snapshots[i].tenantId
            && root.document.payload == snapshots[i].document.payload
            && root.document.resourceVersions == snapshots[i].document.resourceVersions
            && ValidPayload(snapshots[i].document.payload, cedarOk)
  {
    RunsAreSound(ops, cedarOk);
    RootIsPublication(Run(ops, cedarOk).snapshots, i, cedarOk);
  }

  /** The latest snapshot of a tenant is the one with its highest version. */
  lemma LatestIsHighest(ops: seq<Op>, cedarOk: string -> bool, tenantId: string)
    requires FreshIds(ops, cedarOk)
    ensures var s := Run(ops, cedarOk);
            match Latest(s, tenantId)
            case None => VersionsOf(s.snapshots, tenantId) == []
            case Some(latest) => latest in s.snapshots && latest.tenantId == tenantId
                                 && latest.version == |VersionsOf(s.snapshots, tenantId)|
                                 && forall x :: x in s.snapshots && x.tenantId == tenantId ==>
                                      x.version <= latest.version
  {
    RunsAreSound(ops, cedarOk);
    var s := Run(ops, cedarOk);
    assert Ordered(s, tenantId);
    NextIsCount(s, tenantId);
    if VersionsOf(s.snapshots, tenantId) == [] { NoneOfTenant(s.snapshots, tenantId); }
  }

  // ---------- snapshots and the operations that made them ----------

  /** The operation is one that goes through, given the snapshots before it. */
  ghost predicate GoesThrough(before: seq<Snapshot>, op: Op, cedarOk: string -> bool)
  {
    match op
    case Publish(_, _, payload, _, _, _) =>
      payload.bundle == NoBundle || (payload.bundle.BundleText? && cedarOk(payload.bundle.text))
    case Rollback(t, sourceId, _, _, _) => exists s :: s in before && s.id == sourceId && s.tenantId == t
  }

  /** The snapshot is what the operation asked for: id, tenant, author and time, and for a publication the payload
      and resource versions of the request, for a rollback those of its source. */
  ghost predicate Made(before: seq<Snapshot>, op: Op, s: Snapshot)
  {
    && s.id == op.newId && s.tenantId == op.tenantId && s.createdBy == op.createdBy && s.publishedAt == op.now
    && match op
       case Publish(_, versions, payload, _, _, _) =>
         && s.document.schema == "gateway.config_snapshot.v1" && s.document.rollbackOf == None
         && s.document.payload == payload && s.document.resourceVersions == versions
       case Rollback(_, sourceId, _, _, _) =>
         && s.document.rollbackOf == Some(sourceId)
         && exists source :: source in before && source.id == sourceId && source.tenantId == s.tenantId
                             && source.document.payload == s.document.payload
                             && source.document.resourceVersions == s.document.resourceVersions
  }

  /** An operation that goes through adds the snapshot it asked for, which is also the answer; one that does not
      leaves the store as it is and says why. */
  lemma StepMeans(s: Store, op: Op, cedarOk: string -> bool)
    requires UniqueSnapshotIds(s.snapshots)
    ensures var (after, r) := Step(s, op, cedarOk);
            && (r.Ok? <==> GoesThrough(s.snapshots, op, cedarOk))
            && (r.Ok? ==> Made(s.snapshots, op, r.value) && after.snapshots == s.snapshots + [r.value])
            && (r.Err? ==>
                  && after == s
                  && match op
                     case Publish(_, _, _, _, _, _) => r.error == BadPayload
                     case Rollback(_, sourceId, _, _, _) =>
                       r.error == if exists x :: x in s.snapshots && x.id == sourceId then SnapshotTenantMismatch
                                  else SnapshotNotFound(sourceId))
  {
    if op.Rollback? {
      forall x | x in s.snapshots && x.id == op.sourceId ensures FindSnapshot(s.snapshots, op.sourceId) == Some(x) {
        var i :| 0 <= i < |s.snapshots| && s.snapshots[i] == x;
        FindUnique(s.snapshots, i);
      }
    }
  }

  /** Operation `k` of the run made the snapshot. */
  ghost predicate MadeBy(ops: seq<Op>, cedarOk: string -> bool, s: Snapshot, k: nat)
  {
    k < |ops| && Made(Run(ops[..k], cedarOk).snapshots, ops[k], s)
  }

  lemma MadeByGrows(ops: seq<Op>, n: nat, cedarOk: string -> bool, s: Snapshot, k: nat)
    requires n <= |ops| && MadeBy(ops[..n], cedarOk, s, k)
    ensures MadeBy(ops, cedarOk, s, k)
  {
    assert ops[..n][..k] == ops[..k] && ops[..n][k] == ops[k];
  }

  /** Every stored snapshot was made by an operation of the run. */
  lemma {:induction false} MadeByOperation(ops: seq<Op>, cedarOk: string -> bool, i: nat) returns (k: nat)
    requires FreshIds(ops, cedarOk) && i < |Run(ops, cedarOk).snapshots|
    ensures MadeBy(ops, cedarOk, Run(ops, cedarOk).snapshots[i], k)
  {
    var n := |ops| - 1;
    var before := Run(ops[..n], cedarOk);
    RunsAreSound(ops[..n], cedarOk);
    StepMeans(before, ops[n], cedarOk);
    if i < |before.snapshots| {
      k := MadeByOperation(ops[..n], cedarOk, i);
      MadeByGrows(ops, n, cedarOk, before.snapshots[i], k);
    } else {
      k := n;
    }
  }

  lemma {:induction false} SnapshotsStay(ops: seq<Op>, cedarOk: string -> bool, k: nat)
    requires k <= |ops|
    ensures Run(ops[..k], cedarOk).snapshots <= Run(ops, cedarOk).snapshots
  {
    if k == |ops| {
      assert ops[..k] == ops;
    } else {
      assert ops[..|ops| - 1][..k] == ops[..k];
      SnapshotsStay(ops[..|ops| - 1], cedarOk, k);
    }
  }

  lemma {:induction false} FreshPrefix(ops: seq<Op>, cedarOk: string -> bool, k: nat)
    requires FreshIds(ops, cedarOk) && k <= |ops|
    ensures FreshIds(ops[..k], cedarOk)
  {
    if k == |ops| {
      assert ops[..k] == ops;
    } else {
      assert ops[..|ops| - 1][..k] == ops[..k];
      FreshPrefix(ops[..|ops| - 1], cedarOk, k);
    }
  }

  /** Every operation that goes through leaves the snapshot it asked for in the store, for good. */
  lemma OperationLeaves(ops: seq<Op>, cedarOk: string -> bool, k: nat) returns (i: nat)
    requires FreshIds(ops, cedarOk) && k < |ops| && GoesThrough(Run(ops[..k], cedarOk).snapshots, ops[k], cedarOk)
    ensures i < |Run(ops, cedarOk).snapshots| && MadeBy(ops, cedarOk, Run(ops, cedarOk).snapshots[i], k)
  {
    var before := Run(ops[..k], cedarOk);
    FreshPrefix(ops, cedarOk, k);
    RunsAreSound(ops[..k], cedarOk);
    StepMeans(before, ops[k], cedarOk);
    assert ops[..k + 1][..k] == ops[..k];
    SnapshotsStay(ops, cedarOk, k + 1);
    i := |before.snapshots|;
  }

  /** In every run with fresh ids, following the pointers from any stored snapshot ends at one that a publication
      of the run made: its payload, resource versions, tenant, author, time and id are those of that operation, and
      the payload and resource versions are also those of the snapshot the pointers were followed from. */
  lemma ContentWasPublished(ops: seq<Op>, cedarOk: string -> bool, i: nat) returns (k: nat)
    requires FreshIds(ops, cedarOk) && i < |Run(ops, cedarOk).snapshots|
    ensures k < |ops| && ops[k].Publish?
    ensures var snapshots := Run(ops, cedarOk).snapshots;
            var root := snapshots[Root(snapshots, i)];
            && root.id == ops[k].newId && root.tenantId == ops[k].tenantId == snapshots[i].tenantId
            && root.createdBy == ops[k].createdBy && root.publishedAt == ops[k].now
            && root.document.payload == ops[k].payload == snapshots[i].document.payload
            && root.document.resourceVersions == ops[k].resourceVersions == snapshots[i].document.resourceVersions
  {
    EveryPayloadWasValidated(ops, cedarOk, i);
    k := MadeByOperation(ops, cedarOk, Root(Run(ops, cedarOk).snapshots, i));
  }

  /** Without a publication pointer: a snapshot of the tenant whose version no other exceeds, and the last of
      those, or none if the tenant has none. */
  lemma {:induction false} MaxByVersionMeans(snapshots: seq<Snapshot>, tenantId: string)
    ensures match MaxByVersion(snapshots, tenantId)
            case None => forall s :: s in snapshots ==> s.tenantId != tenantId
            case Some(best) =>
              exists i :: && 0 <= i < |snapshots| && snapshots[i] == best && best.tenantId == tenantId
                          && (forall j :: 0 <= j < |snapshots| && snapshots[j].tenantId == tenantId ==>
                                snapshots[j].version <= best.version)
                          && (forall j :: i < j < |snapshots| && snapshots[j].tenantId == tenantId ==>
                                snapshots[j].version < best.version)
  {
    if snapshots == [] {
    } else {
      var init, s := snapshots[..|snapshots| - 1], snapshots[|snapshots| - 1];
      MaxByVersionMeans(init, tenantId);
      assert snapshots == init + [s];
    }
  }
}
