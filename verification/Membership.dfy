/** Organization and project memberships: upsert, optimistic status updates and the cascade, over whole runs.
    Both record types are one datatype; an organization membership has no project and no parent. */
module Membership {
  import opened Base
  import opened Text

  datatype Status = Active | Suspended | Removed

  datatype Table = OrganizationTable | ProjectTable

  datatype Member = Member(
    id: string, tenantId: string, organizationId: string, projectId: Option<string>, principalId: string,
    parentId: Option<string>, kind: string, status: Status, version: int)

  /** The request of an upsert; for projects `projectId` and `parentId` are given, for organizations not. */
  datatype Upsert = Upsert(
    id: string, tenantId: string, organizationId: string, projectId: Option<string>, principalId: string,
    parentId: Option<string>, kind: string)

  datatype Error =
    | InvalidMembershipId | InvalidTenantId | InvalidOrganizationId | InvalidProjectId | InvalidPrincipalId
    | InvalidMembershipKind | StaleResourceVersion

  type Records = map<string, Member>

  // ---------- validation ----------

  predicate ValidKind(kind: string) { kind == "user" || kind == "service_account" }

  predicate ValidPrincipal(id: string) { "usr_" <= id || "svc_" <= id }

  function Validate(table: Table, m: Member): Option<Error>
  {
    if !((if table.OrganizationTable? then "om_" else "pm_") <= m.id) then Some(InvalidMembershipId)
    else if !("ten_" <= m.tenantId) then Some(InvalidTenantId)
    else if !("org_" <= m.organizationId) then Some(InvalidOrganizationId)
    else if table.ProjectTable? && !(m.projectId.Some? && "prj_" <= m.projectId.value) then Some(InvalidProjectId)
    else if !ValidPrincipal(m.principalId) then Some(InvalidPrincipalId)
    else if table.ProjectTable? && m.parentId.Some? && !("om_" <= m.parentId.value) then Some(InvalidMembershipId)
    else if !ValidKind(m.kind) then Some(InvalidMembershipKind)
    else if m.version <= 0 then Some(StaleResourceVersion)
    else None
  }

  function Checked(table: Table, m: Member): Result<Member, Error>
  {
    var e := Validate(table, m);
    if e.Some? then Err(e.value) else Ok(m)
  }

  /** What is wrong with a record that an error is about. */
  ghost predicate Wrong(table: Table, m: Member, e: Error)
  {
    match e
    case InvalidMembershipId =>
      || (table == OrganizationTable && !StartsWith(m.id, "om_"))
      || (table == ProjectTable && !StartsWith(m.id, "pm_"))
      || (table == ProjectTable && m.parentId.Some? && !StartsWith(m.parentId.value, "om_"))
    case InvalidTenantId => !StartsWith(m.tenantId, "ten_")
    case InvalidOrganizationId => !StartsWith(m.organizationId, "org_")
    case InvalidProjectId => table == ProjectTable && (m.projectId.Some? ==> !StartsWith(m.projectId.value, "prj_"))
    case InvalidPrincipalId => !StartsWith(m.principalId, "usr_") && !StartsWith(m.principalId, "svc_")
    case InvalidMembershipKind => m.kind != "user" && m.kind != "service_account"
    case StaleResourceVersion => m.version < 1
  }

  /** A record is refused exactly when something is wrong with it, and with an error that is about that. */
  lemma ValidateMeans(table: Table, m: Member)
    ensures match Validate(table, m)
            case None => forall e :: !Wrong(table, m, e)
            case Some(e) => Wrong(table, m, e)
  {
    StartsWithMeans(m.id, "om_");
    StartsWithMeans(m.id, "pm_");
    StartsWithMeans(m.tenantId, "ten_");
    StartsWithMeans(m.organizationId, "org_");
    StartsWithMeans(m.principalId, "usr_");
    StartsWithMeans(m.principalId, "svc_");
    if m.projectId.Some? { StartsWithMeans(m.projectId.value, "prj_"); }
    if m.parentId.Some? { StartsWithMeans(m.parentId.value, "om_"); }
  }

  // ---------- the operations on values ----------

  /** Whose seat a membership is: one per organization and principal, one per project and principal. */
  predicate SameSeat(table: Table, m: Member, tenantId: string, organizationId: string, projectId: Option<string>,
                     principalId: string)
  {
    m.principalId == principalId
    && if table.OrganizationTable? then m.tenantId == tenantId && m.organizationId == organizationId
       else m.projectId == projectId
  }

  function SeatOf(table: Table, q: Upsert): Member -> bool
  {
    (m: Member) => SameSeat(table, m, q.tenantId, q.organizationId, q.projectId, q.principalId)
  }

  /** The stored record after an upsert found it: active, with the requested kind and parent, and a new
      version if any of that was a change. */
  function Refreshed(table: Table, m: Member, q: Upsert): Member
  {
    var parentId := if table.ProjectTable? then q.parentId else m.parentId;
    if m.status == Active && m.kind == q.kind && m.parentId == parentId then m
    else m.(status := Active, kind := q.kind, parentId := parentId, version := m.version + 1)
  }

  function NewMember(q: Upsert): Member
  {
    Member(q.id, q.tenantId, q.organizationId, q.projectId, q.principalId, q.parentId, q.kind, Active, 1)
  }

  ghost function DoUpsert(table: Table, records: Records, q: Upsert): (Records, Result<Member, Error>)
  {
    match FirstKey(records, SeatOf(table, q))
    case Some(k) => (records[k := Refreshed(table, records[k], q)], Checked(table, Refreshed(table, records[k], q)))
    case None =>
      var m := NewMember(q);
      if Validate(table, m).Some? then (records, Err(Validate(table, m).value)) else (records[q.id := m], Ok(m))
  }

  function DoUpdate(records: Records, id: string, expected: int, status: Status): (Records, Result<Member, Error>)
  {
    if id !in records then (records, Err(InvalidMembershipId))
    else if records[id].version != expected then (records, Err(StaleResourceVersion))
    else
      var m := records[id].(status := status, version := records[id].version + 1);
      (records[id := m], Ok(m))
  }

  function Rank(s: Status): nat
  {
    match s case Active => 2 case Suspended => 1 case Removed => 0
  }

  /** The lower of two statuses. */
  function Meet(s: Status, t: Status): Status { if Rank(s) <= Rank(t) then s else t }

  predicate ChildOf(m: Member, who: Member)
  {
    m.tenantId == who.tenantId && m.organizationId == who.organizationId && m.principalId == who.principalId
  }

  function Lowered(m: Member, who: Member, status: Status): Member
  {
    if ChildOf(m, who) && Meet(m.status, status) != m.status
    then m.(status := Meet(m.status, status), version := m.version + 1)
    else m
  }

  ghost function DoCascade(records: Records, who: Member, status: Status): Records
  {
    map k | k in records :: Lowered(records[k], who, status)
  }

  ghost function Changed(before: Records, after: Records): set<string>
  {
    set k | k in before && k in after && before[k] != after[k]
  }

  // ---------- the store ----------

  class MembershipStore {
    var organizationMembers: Records
    var projectMembers: Records

    constructor ()
      ensures organizationMembers == map[] && projectMembers == map[]
    {
      organizationMembers, projectMembers := map[], map[];
    }

    method UpdateOrganizationMemberStatus(id: string, expected: int, status: Status) returns (r: Result<Member, Error>)
      modifies this`organizationMembers
      ensures (organizationMembers, r) == DoUpdate(old(organizationMembers), id, expected, status)
    {
      if id !in organizationMembers { return Err(InvalidMembershipId); }
      var m := organizationMembers[id];
      if m.version != expected { return Err(StaleResourceVersion); }
      m := m.(status := status, version := m.version + 1);
      organizationMembers := organizationMembers[id := m];
      return Ok(m);
    }

    method UpdateProjectMemberStatus(id: string, expected: int, status: Status) returns (r: Result<Member, Error>)
      modifies this`projectMembers
      ensures (projectMembers, r) == DoUpdate(old(projectMembers), id, expected, status)
    {
      if id !in projectMembers { return Err(InvalidMembershipId); }
      var m := projectMembers[id];
      if m.version != expected { return Err(StaleResourceVersion); }
      m := m.(status := status, version := m.version + 1);
      projectMembers := projectMembers[id := m];
      return Ok(m);
    }

    method UpsertOrganizationMember(q: Upsert) returns (r: Result<Member, Error>)
      requires q.projectId.None? && q.parentId.None?
      modifies this`organizationMembers
      ensures (organizationMembers, r) == DoUpsert(OrganizationTable, old(organizationMembers), q)
    {
      var existing := FindFirst(organizationMembers, SeatOf(OrganizationTable, q));
      var m;
      if existing.Some? {
        m := organizationMembers[existing.value];
        if m.status != Active || m.kind != q.kind {
          m := m.(status := Active, kind := q.kind, version := m.version + 1);
        }
        organizationMembers := organizationMembers[existing.value := m];
      } else {
        m := NewMember(q);
        if Validate(OrganizationTable, m).Some? { return Err(Validate(OrganizationTable, m).value); }
        organizationMembers := organizationMembers[q.id := m];
      }
      return Checked(OrganizationTable, m);
    }

    method UpsertProjectMember(q: Upsert) returns (r: Result<Member, Error>)
      requires q.projectId.Some? && q.parentId.Some?
      modifies this`projectMembers
      ensures (projectMembers, r) == DoUpsert(ProjectTable, old(projectMembers), q)
    {
      var existing := FindFirst(projectMembers, SeatOf(ProjectTable, q));
      var m;
      if existing.Some? {
        m := projectMembers[existing.value];
        var statusChanged, kindChanged, parentChanged := m.status != Active, m.kind != q.kind, m.parentId != q.parentId;
        if statusChanged { m := m.(status := Active); }
        if kindChanged { m := m.(kind := q.kind); }
        if parentChanged { m := m.(parentId := q.parentId); }
        if statusChanged || kindChanged || parentChanged { m := m.(version := m.version + 1); }
        projectMembers := projectMembers[existing.value := m];
      } else {
        m := NewMember(q);
        if Validate(ProjectTable, m).Some? { return Err(Validate(ProjectTable, m).value); }
        projectMembers := projectMembers[q.id := m];
      }
      return Checked(ProjectTable, m);
    }

    /** The cascade sets each child membership to the lower of its status and the given one, and counts
        exactly the records it changed. */
    method CascadeProjectMemberships(who: Member, status: Status) returns (updated: nat)
      modifies this`projectMembers
      ensures projectMembers == DoCascade(old(projectMembers), who, status)
      ensures updated == |Changed(old(projectMembers), projectMembers)|
    {
      NothingBelowActive(projectMembers, who);
      if status == Active { return 0; }
      projectMembers, updated := LowerAll(projectMembers, who, status);
    }
  }

  method LowerAll(records: Records, who: Member, status: Status) returns (after: Records, updated: nat)
    ensures after == DoCascade(records, who, status)
    ensures updated == |Changed(records, after)|
  {
    after, updated := records, 0;
    var todo := records.Keys;
    assert Changed(records, records) == {};
    while todo != {}
      invariant todo <= records.Keys && HalfWay(records, after, todo, who, status)
      invariant updated == |Changed(records, after)|
      decreases |todo|
    {
      var k :| k in todo;
      OneFewer(todo, k);
      HalfWayStep(records, after, todo, who, status, k);
      ChangedStep(records, after, k, Lowered(records[k], who, status));
      var m, lowered := LowerOne(after[k], who, status);
      after := after[k := m];
      if lowered { updated := updated + 1; }
      todo := todo - {k};
    }
    assert after == DoCascade(records, who, status);
  }

  method LowerOne(m: Member, who: Member, status: Status) returns (m': Member, lowered: bool)
    ensures m' == Lowered(m, who, status) && (lowered <==> m' != m)
  {
    LoweredByRule(m, who, status);
    lowered := ChildOf(m, who) && ShouldUpdate(status, m.status);
    m' := if lowered then m.(status := status, version := m.version + 1) else m;
  }

  predicate ShouldUpdate(status: Status, current: Status)
  {
    match status
    case Active => false
    case Suspended => current == Active
    case Removed => current != Removed
  }

  /** The records outside `todo` have been lowered, the others not yet. */
  ghost predicate HalfWay(before: Records, now: Records, todo: set<string>, who: Member, status: Status)
  {
    && now.Keys == before.Keys
    && forall k :: k in before ==> now[k] == if k in todo then before[k] else Lowered(before[k], who, status)
  }

  lemma LoweredByRule(m: Member, who: Member, status: Status)
    ensures Lowered(m, who, status) ==
            if ChildOf(m, who) && ShouldUpdate(status, m.status) then m.(status := status, version := m.version + 1)
            else m
  {}

  lemma HalfWayStep(before: Records, now: Records, todo: set<string>, who: Member, status: Status, k: string)
    requires HalfWay(before, now, todo, who, status) && k in todo && k in before
    ensures now[k] == before[k] && HalfWay(before, now[k := Lowered(before[k], who, status)], todo - {k}, who, status)
  {}

  lemma ChangedStep(before: Records, now: Records, k: string, m: Member)
    requires k in before && k in now && now[k] == before[k]
    ensures |Changed(before, now[k := m])| == |Changed(before, now)| + if m != before[k] then 1 else 0
  {
    assert k !in Changed(before, now);
    assert Changed(before, now[k := m]) == Changed(before, now) + if m != before[k] then {k} else {};
  }

  lemma NothingBelowActive(records: Records, who: Member)
    ensures DoCascade(records, who, Active) == records && Changed(records, records) == {}
  {}

  // ---------- the cascade as a meet ----------

  ghost function Cascades(records: Records, who: Member, statuses: seq<Status>): Records
  {
    if statuses == [] then records
    else DoCascade(Cascades(records, who, statuses[..|statuses| - 1]), who, statuses[|statuses| - 1])
  }

  /** The status is the lowest of the old one and the given ones. */
  ghost predicate IsLowest(r: Status, old_: Status, statuses: seq<Status>)
  {
    && (r == old_ || r in statuses)
    && Rank(r) <= Rank(old_) && forall s :: s in statuses ==> Rank(r) <= Rank(s)
  }

  /** After any sequence of cascades a child membership has the lowest of its old status and the given ones,
      a new version exactly if the status changed, and everything else as before; other records are untouched. */
  lemma {:induction false} CascadesMeet(records: Records, who: Member, statuses: seq<Status>, k: string)
    requires k in records
    ensures k in Cascades(records, who, statuses)
    ensures var m, after := records[k], Cascades(records, who, statuses)[k];
            && after == m.(status := after.status, version := after.version)
            && m.version <= after.version && (after.version == m.version <==> after.status == m.status)
            && (if m.tenantId == who.tenantId && m.organizationId == who.organizationId
                   && m.principalId == who.principalId
                then IsLowest(after.status, m.status, statuses) else after == m)
  {
    if statuses == [] {
    } else {
      var init, last := statuses[..|statuses| - 1], statuses[|statuses| - 1];
      CascadesMeet(records, who, init, k);
      assert statuses == init + [last];
    }
  }

  /** The order and repetition of cascades for one member do not matter to the final statuses. */
  lemma CascadesCommute(records: Records, who: Member, ss: seq<Status>, ts: seq<Status>, k: string)
    requires k in records && forall s :: s in ss <==> s in ts
    ensures k in Cascades(records, who, ss) && k in Cascades(records, who, ts)
    ensures Cascades(records, who, ss)[k].status == Cascades(records, who, ts)[k].status
  {
    CascadesMeet(records, who, ss, k);
    CascadesMeet(records, who, ts, k);
  }

  /** Repeating a cascade changes nothing, so it returns 0. */
  lemma CascadeIdempotent(records: Records, who: Member, status: Status)
    ensures DoCascade(DoCascade(records, who, status), who, status) == DoCascade(records, who, status)
    ensures |Changed(DoCascade(records, who, status), DoCascade(DoCascade(records, who, status), who, status))| == 0
  {
    var once := DoCascade(records, who, status);
    assert Changed(once, DoCascade(once, who, status)) == {};
  }

  // ---------- runs over one table ----------

  datatype Op =
    | UpsertOp(q: Upsert)
    | UpdateOp(id: string, expected: int, status: Status)
    | CascadeOp(who: Member, status: Status)

  ghost function Step(table: Table, records: Records, op: Op): Records
  {
    match op
    case UpsertOp(q) => DoUpsert(table, records, q).0
    case UpdateOp(id, expected, status) => DoUpdate(records, id, expected, status).0
    case CascadeOp(who, status) => DoCascade(records, who, status)
  }

  ghost function Run(table: Table, ops: seq<Op>): Records
  {
    if ops == [] then map[] else Step(table, Run(table, ops[..|ops| - 1]), ops[|ops| - 1])
  }

  ghost predicate OneSeatEach(table: Table, records: Records)
  {
    && (forall k :: k in records ==> records[k].id == k)
    && (forall k, l :: k in records && l in records && k != l ==>
          !SameSeat(table, records[k], records[l].tenantId, records[l].organizationId, records[l].projectId,
              records[l].principalId))
  }

  lemma UpsertKeepsSeats(table: Table, records: Records, q: Upsert)
    requires OneSeatEach(table, records)
    ensures OneSeatEach(table, DoUpsert(table, records, q).0)
  {
    if FirstKey(records, SeatOf(table, q)).None? {
      assert forall k :: k in records ==> !SeatOf(table, q)(records[k]);
    }
  }

  /** Records that keep their ids and seats. */
  lemma SameSeatsKeep(table: Table, records: Records, after: Records)
    requires OneSeatEach(table, records) && after.Keys == records.Keys
    requires forall k :: k in records ==>
             after[k] == records[k].(status := after[k].status, version := after[k].version)
    ensures OneSeatEach(table, after)
  {}

  lemma StepKeepsSeats(table: Table, records: Records, op: Op)
    requires OneSeatEach(table, records)
    ensures OneSeatEach(table, Step(table, records, op))
  {
    if op.UpsertOp? { UpsertKeepsSeats(table, records, op.q); }
    else { SameSeatsKeep(table, records, Step(table, records, op)); }
  }

  /** At most one organization membership per tenant, organization and principal, and one project membership
      per project and principal, after any run. */
  lemma {:induction false} RunsKeepSeats(table: Table, ops: seq<Op>)
    ensures OneSeatEach(table, Run(table, ops))
  {
    if ops == [] {
    } else {
      RunsKeepSeats(table, ops[..|ops| - 1]);
      StepKeepsSeats(table, Run(table, ops[..|ops| - 1]), ops[|ops| - 1]);
    }
  }

  /** In every run two records differ in tenant, organization or principal, or for projects in project or
      principal. */
  lemma SeatsAreUnique(table: Table, ops: seq<Op>, k: string, l: string)
    requires k in Run(table, ops) && l in Run(table, ops) && k != l
    ensures var m, n := Run(table, ops)[k], Run(table, ops)[l];
            if table == OrganizationTable
            then m.tenantId != n.tenantId || m.organizationId != n.organizationId || m.principalId != n.principalId
            else m.projectId != n.projectId || m.principalId != n.principalId
  {
    RunsKeepSeats(table, ops);
  }

  /** The record is for the principal of the request, and for its organization in its tenant, or its project. */
  ghost predicate InSeat(table: Table, m: Member, q: Upsert)
  {
    && m.principalId == q.principalId
    && (table == OrganizationTable ==> m.tenantId == q.tenantId && m.organizationId == q.organizationId)
    && (table == ProjectTable ==> m.projectId == q.projectId)
  }

  /** The record an upsert leaves in a seat that is taken. */
  ghost predicate Reactivated(table: Table, m: Member, q: Upsert, after: Member)
  {
    && after == m.(status := after.status, kind := after.kind, parentId := after.parentId, version := after.version)
    && after.status == Active && after.kind == q.kind
    && after.parentId == (if table == ProjectTable then q.parentId else m.parentId)
    && after.version == m.version + if after.(version := m.version) == m then 0 else 1
  }

  /** An upsert reactivates the record in the seat, and says so if nothing is wrong with it then; if the seat is
      free it inserts a new record as requested, if nothing is wrong with that. */
  lemma UpsertMeans(table: Table, records: Records, q: Upsert, k: string)
    requires OneSeatEach(table, records)
    ensures var (after, r) := DoUpsert(table, records, q);
            var new_ := Member(q.id, q.tenantId, q.organizationId, q.projectId, q.principalId, q.parentId, q.kind,
                               Active, 1);
            && (k in records && InSeat(table, records[k], q) ==>
                  && k in after && after == records[k := after[k]] && Reactivated(table, records[k], q, after[k])
                  && (r.Ok? ==> r.value == after[k] && forall e :: !Wrong(table, after[k], e))
                  && (r.Err? ==> Wrong(table, after[k], r.error)))
            && ((forall l :: l in records ==> !InSeat(table, records[l], q)) ==>
                  if r.Ok? then r.value == new_ && after == records[q.id := new_] && forall e :: !Wrong(table, new_, e)
                  else after == records && Wrong(table, new_, r.error))
  {
    if k in records && InSeat(table, records[k], q) {
      FindsTheSeat(table, records, q, k);
      ValidateMeans(table, Refreshed(table, records[k], q));
    }
    ValidateMeans(table, NewMember(q));
  }

  /** An upsert that succeeds leaves, under the returned id, an active membership of the requested seat and kind
      (and parent, for a project), one version further exactly if something changed, and touches nothing else. */
  lemma UpsertOutcome(table: Table, records: Records, q: Upsert)
    requires OneSeatEach(table, records) && DoUpsert(table, records, q).1.Ok?
    ensures var (after, r) := DoUpsert(table, records, q);
            var m := r.value;
            && m.status == Active && m.kind == q.kind && (table.ProjectTable? ==> m.parentId == q.parentId)
            && InSeat(table, m, q)
            && after == records[m.id := m]
            && (if FirstKey(records, SeatOf(table, q)).None? then m.id == q.id && m.version == 1
                else && m.id in records
                     && m == records[m.id].(status := Active, kind := q.kind, parentId := m.parentId,
                                                version := m.version)
                     && (table.OrganizationTable? ==> m.parentId == records[m.id].parentId)
                     && m.version == records[m.id].version + if m == records[m.id] then 0 else 1)
  {}

  /** An upsert that will insert brings an id that no record has. */
  ghost predicate Unused(table: Table, records: Records, op: Op)
  {
    op.UpsertOp? && FirstKey(records, SeatOf(table, op.q)).None? ==> op.q.id !in records
  }

  ghost predicate AllUnused(table: Table, ops: seq<Op>)
  {
    ops != [] ==>
      && AllUnused(table, ops[..|ops| - 1])
      && Unused(table, Run(table, ops[..|ops| - 1]), ops[|ops| - 1])
  }

  lemma {:induction false} UnusedPrefix(table: Table, ops: seq<Op>, j: nat)
    requires AllUnused(table, ops) && j <= |ops|
    ensures AllUnused(table, ops[..j])
  {
    if j == |ops| {
      assert ops[..j] == ops;
    } else {
      assert ops[..|ops| - 1][..j] == ops[..j];
      UnusedPrefix(table, ops[..|ops| - 1], j);
    }
  }

  /** A step leaves a record as it is or raises its version by exactly one; new records start at one. */
  lemma StepVersions(table: Table, records: Records, op: Op)
    requires Unused(table, records, op)
    ensures records.Keys <= Step(table, records, op).Keys
    ensures forall k :: k in records ==>
              Step(table, records, op)[k] == records[k] || Step(table, records, op)[k].version == records[k].version + 1
    ensures forall k :: k in Step(table, records, op) && k !in records ==> Step(table, records, op)[k].version == 1
  {}

  lemma StepVersion(table: Table, records: Records, op: Op, id: string)
    requires Unused(table, records, op)
    ensures var after := Step(table, records, op);
            if id in records then id in after && after[id].version == records[id].version + Differs(records, after, id)
            else id in after ==> after[id].version == 1
  {
    StepVersions(table, records, op);
  }

  /** One if the record was there and is now different. */
  ghost function Differs(before: Records, after: Records, id: string): nat
  {
    if id in before && id in after && before[id] != after[id] then 1 else 0
  }

  /** How many steps changed a record that was there. */
  ghost function Changes(table: Table, ops: seq<Op>, id: string): nat
  {
    if ops == [] then 0
    else
      var init := ops[..|ops| - 1];
      Changes(table, init, id) + Differs(Run(table, init), Run(table, ops), id)
  }

  /** In every run whose inserts bring unused ids, the version of a record is one more than the number of times
      it was changed: no change goes without a version, and no version without a change. */
  lemma {:induction false} VersionCountsChanges(table: Table, ops: seq<Op>, id: string)
    requires AllUnused(table, ops)
    ensures if id in Run(table, ops) then Run(table, ops)[id].version == 1 + Changes(table, ops, id)
            else Changes(table, ops, id) == 0
  {
    if ops == [] {
    } else {
      var init := ops[..|ops| - 1];
      VersionCountsChanges(table, init, id);
      StepVersion(table, Run(table, init), ops[|ops| - 1], id);
    }
  }

  lemma {:induction false} VersionsOnlyGrow(table: Table, ops: seq<Op>, i: nat, id: string)
    requires AllUnused(table, ops) && i <= |ops| && id in Run(table, ops[..i])
    ensures id in Run(table, ops) && Run(table, ops[..i])[id].version <= Run(table, ops)[id].version
  {
    if i == |ops| {
      assert ops[..i] == ops;
    } else {
      var init := ops[..|ops| - 1];
      assert init[..i] == ops[..i];
      VersionsOnlyGrow(table, init, i, id);
      StepVersions(table, Run(table, init), ops[|ops| - 1]);
    }
  }

  /** A record stays, in its seat, through every step. */
  lemma StepKeepsRecord(table: Table, records: Records, op: Op, id: string)
    requires Unused(table, records, op) && id in records
    ensures id in Step(table, records, op) && SameRecord(records[id], Step(table, records, op)[id])
  {
  }

  ghost predicate SameRecord(m: Member, n: Member)
  {
    n == m.(parentId := n.parentId, kind := n.kind, status := n.status, version := n.version)
  }

  lemma {:induction false} RecordsStay(table: Table, ops: seq<Op>, i: nat, id: string)
    requires AllUnused(table, ops) && i <= |ops| && id in Run(table, ops[..i])
    ensures id in Run(table, ops) && SameRecord(Run(table, ops[..i])[id], Run(table, ops)[id])
  {
    if i == |ops| {
      assert ops[..i] == ops;
    } else {
      var init := ops[..|ops| - 1];
      assert init[..i] == ops[..i];
      RecordsStay(table, init, i, id);
      StepKeepsRecord(table, Run(table, init), ops[|ops| - 1], id);
    }
  }

  /** What the upsert at `i` answered. */
  ghost function AnswerAt(table: Table, ops: seq<Op>, i: nat): Result<Member, Error>
    requires i < |ops| && ops[i].UpsertOp?
  {
    DoUpsert(table, Run(table, ops[..i]), ops[i].q).1
  }

  lemma AnswerIsStored(table: Table, ops: seq<Op>, i: nat)
    requires i < |ops| && ops[i].UpsertOp? && AnswerAt(table, ops, i).Ok?
    ensures var m, after := AnswerAt(table, ops, i).value, Run(table, ops[..i + 1]);
            m.id in after && after[m.id] == m && SeatOf(table, ops[i].q)(m)
  {
    assert ops[..i + 1][..i] == ops[..i];
    RunsKeepSeats(table, ops[..i]);
    UpsertOutcome(table, Run(table, ops[..i]), ops[i].q);
  }

  /** A successful upsert of a seat that is taken answers with the record that sits there, no older. */
  lemma AnswerIsTheSeat(table: Table, records: Records, q: Upsert, id: string)
    requires OneSeatEach(table, records) && id in records && SeatOf(table, q)(records[id])
    requires DoUpsert(table, records, q).1.Ok?
    ensures var m := DoUpsert(table, records, q).1.value;
            m.id == id && records[id].version <= m.version
  {
    FindsTheSeat(table, records, q, id);
    UpsertOutcome(table, records, q);
  }

  /** What an upsert answered is still in its seat, no older, at the end of the run. */
  lemma AnswerStays(table: Table, ops: seq<Op>, i: nat)
    requires AllUnused(table, ops) && i < |ops| && ops[i].UpsertOp? && AnswerAt(table, ops, i).Ok?
    ensures var m, after := AnswerAt(table, ops, i).value, Run(table, ops);
            && m.id in after && SeatOf(table, ops[i].q)(m) && SameRecord(m, after[m.id])
            && m.version <= after[m.id].version
  {
    var id := AnswerAt(table, ops, i).value.id;
    AnswerIsStored(table, ops, i);
    RecordsStay(table, ops, i + 1, id);
    VersionsOnlyGrow(table, ops, i + 1, id);
  }

  lemma SameSeatThrough(table: Table, q: Upsert, r: Upsert, m: Member, n: Member)
    requires SeatOf(table, q)(m) && SameRecord(m, n) && SeatOf(table, r)(NewMember(q))
    ensures SeatOf(table, r)(n)
  {
  }

  /** In every run whose inserts bring unused ids, all successful upserts of one seat answer with the same record,
      whatever is suspended, removed or cascaded in between. */
  lemma OneIdPerSeat(table: Table, ops: seq<Op>, i: nat, j: nat)
    requires AllUnused(table, ops) && i < j < |ops| && ops[i].UpsertOp? && ops[j].UpsertOp?
    requires InSeat(table, NewMember(ops[i].q), ops[j].q)
    requires AnswerAt(table, ops, i).Ok? && AnswerAt(table, ops, j).Ok?
    ensures AnswerAt(table, ops, i).value.id == AnswerAt(table, ops, j).value.id
    ensures AnswerAt(table, ops, i).value.version <= AnswerAt(table, ops, j).value.version
  {
    var upToJ, m := ops[..j], AnswerAt(table, ops, i).value;
    assert upToJ[..i] == ops[..i];
    UnusedPrefix(table, ops, j);
    AnswerStays(table, upToJ, i);
    RunsKeepSeats(table, upToJ);
    SameSeatThrough(table, ops[i].q, ops[j].q, m, Run(table, upToJ)[m.id]);
    AnswerIsTheSeat(table, Run(table, upToJ), ops[j].q, m.id);
  }

  /** A status update succeeds exactly when the id is stored at the expected version. The record then has the
      requested status at the next version, which is also the answer, and is otherwise as it was; no other record
      changes. A missing id and a stale version are told apart. */
  lemma UpdateMeans(records: Records, id: string, expected: int, status: Status)
    ensures var (after, r) := DoUpdate(records, id, expected, status);
            && (r.Ok? <==> id in records && records[id].version == expected)
            && (r.Err? ==> after == records
                           && r.error == if id in records then StaleResourceVersion else InvalidMembershipId)
            && (r.Ok? ==>
                  && r.value.status == status && r.value.version == expected + 1
                  && r.value == records[id].(status := r.value.status, version := r.value.version)
                  && after.Keys == records.Keys && after[id] == r.value
                  && forall k :: k in records && k != id ==> after[k] == records[k])
  {
  }

  /** While its version is the same, a record is the same. */
  lemma {:induction false} SameVersionSameRecord(table: Table, ops: seq<Op>, i: nat, id: string)
    requires AllUnused(table, ops) && i <= |ops| && id in Run(table, ops[..i])
    requires id in Run(table, ops) && Run(table, ops)[id].version == Run(table, ops[..i])[id].version
    ensures Run(table, ops)[id] == Run(table, ops[..i])[id]
  {
    if i == |ops| {
      assert ops[..i] == ops;
    } else {
      var init := ops[..|ops| - 1];
      assert init[..i] == ops[..i];
      VersionsOnlyGrow(table, init, i, id);
      StepVersion(table, Run(table, init), ops[|ops| - 1], id);
      SameVersionSameRecord(table, init, i, id);
    }
  }

  /** In every run whose inserts bring unused ids: from a successful status update on, the record has that status
      until an operation changes it again, which shows in its version. */
  lemma UpdatedStatusHolds(table: Table, ops: seq<Op>, i: nat)
    requires AllUnused(table, ops) && i < |ops| && ops[i].UpdateOp? && Succeeds(table, ops, i)
    ensures ops[i].id in Run(table, ops) && Run(table, ops)[ops[i].id].version >= ops[i].expected + 1
    ensures Run(table, ops)[ops[i].id].version == ops[i].expected + 1 ==>
              Run(table, ops)[ops[i].id].status == ops[i].status
  {
    var id := ops[i].id;
    assert ops[..i + 1][..i] == ops[..i];
    UpdateMeans(Run(table, ops[..i]), id, ops[i].expected, ops[i].status);
    VersionsOnlyGrow(table, ops, i + 1, id);
    if Run(table, ops)[id].version == ops[i].expected + 1 { SameVersionSameRecord(table, ops, i + 1, id); }
  }

  ghost predicate Succeeds(table: Table, ops: seq<Op>, i: nat)
    requires i < |ops| && ops[i].UpdateOp?
  {
    DoUpdate(Run(table, ops[..i]), ops[i].id, ops[i].expected, ops[i].status).1.Ok?
  }

  /** No lost update: of two status updates of one record with the same expected version, at most one succeeds. */
  lemma NoLostUpdate(table: Table, ops: seq<Op>, i: nat, j: nat)
    requires AllUnused(table, ops) && i < j < |ops| && ops[i].UpdateOp? && ops[j].UpdateOp?
    requires ops[i].id == ops[j].id && ops[i].expected == ops[j].expected
    ensures !(Succeeds(table, ops, i) && Succeeds(table, ops, j))
  {
    if Succeeds(table, ops, i) {
      assert ops[..i + 1][..i] == ops[..i];
      assert ops[..j][..i + 1] == ops[..i + 1];
      UnusedPrefix(table, ops, j);
      VersionsOnlyGrow(table, ops[..j], i + 1, ops[i].id);
    }
  }

  /** With one record per seat, the upsert finds the record that sits there. */
  lemma FindsTheSeat(table: Table, records: Records, q: Upsert, k: string)
    requires OneSeatEach(table, records) && k in records && SeatOf(table, q)(records[k])
    ensures FirstKey(records, SeatOf(table, q)) == Some(k)
  {
    var first := FirstKey(records, SeatOf(table, q));
    assert SeatOf(table, q)(records[first.value]);
  }

  lemma RefreshedOnce(table: Table, m: Member, q: Upsert)
    ensures Refreshed(table, Refreshed(table, m, q), q) == Refreshed(table, m, q)
    ensures SeatOf(table, q)(m) ==> SeatOf(table, q)(Refreshed(table, m, q))
    ensures Refreshed(table, NewMember(q), q) == NewMember(q) && SeatOf(table, q)(NewMember(q))
  {}

  /** Repeating an upsert that succeeded changes nothing and gives the same answer. */
  lemma UpsertIdempotent(table: Table, records: Records, q: Upsert)
    requires OneSeatEach(table, records) && DoUpsert(table, records, q).1.Ok?
    ensures DoUpsert(table, DoUpsert(table, records, q).0, q) == DoUpsert(table, records, q)
  {
    var (after, r) := DoUpsert(table, records, q);
    UpsertKeepsSeats(table, records, q);
    var first := FirstKey(records, SeatOf(table, q));
    var k := if first.Some? then first.value else q.id;
    RefreshedOnce(table, if first.Some? then records[k] else NewMember(q), q);
    FindsTheSeat(table, after, q, k);
    assert after[k := after[k]] == after;
  }

  // ---------- well-formed records ----------

  ghost predicate AllValid(table: Table, records: Records)
  {
    forall k :: k in records ==> Validate(table, records[k]).None?
  }

  predicate ValidChange(table: Table, q: Upsert)
  {
    ValidKind(q.kind) && (table.ProjectTable? && q.parentId.Some? ==> "om_" <= q.parentId.value)
  }

  lemma RefreshedValidIff(table: Table, m: Member, q: Upsert)
    requires Validate(table, m).None?
    ensures Validate(table, Refreshed(table, m, q)).None? <==> ValidChange(table, q)
  {}

  lemma PutKeepsValidIff(table: Table, records: Records, k: string, m: Member)
    requires AllValid(table, records)
    ensures AllValid(table, records[k := m]) <==> Validate(table, m).None?
  {
    assert records[k := m][k] == m;
  }

  /** The update branch stores the requested kind and parent before checking them: stored records stay well
      formed exactly when the upsert inserts or its kind and parent are well formed. */
  lemma UpsertKeepsValidIff(table: Table, records: Records, q: Upsert)
    requires AllValid(table, records)
    ensures AllValid(table, DoUpsert(table, records, q).0) <==>
            FirstKey(records, SeatOf(table, q)).None? || ValidChange(table, q)
  {
    var first := FirstKey(records, SeatOf(table, q));
    if first.Some? {
      RefreshedValidIff(table, records[first.value], q);
      PutKeepsValidIff(table, records, first.value, Refreshed(table, records[first.value], q));
    } else {
      PutKeepsValidIff(table, records, q.id, NewMember(q));
    }
  }

  /** It does happen: a membership of a known kind, upserted again with an unknown one, is stored that way. */
  lemma BadKindIsStored(table: Table, q: Upsert, kind: string)
    requires Validate(table, NewMember(q)).None? && !ValidKind(kind)
    ensures !AllValid(table, Run(table, [UpsertOp(q), UpsertOp(q.(kind := kind))]))
  {
    var ops := [UpsertOp(q), UpsertOp(q.(kind := kind))];
    var none: Records, one := map[], [UpsertOp(q)];
    assert one[..|one| - 1] == [] && ops[..|ops| - 1] == one;
    assert Run(table, []) == none;
    assert FirstKey(none, SeatOf(table, q)).None?;
    var records := Run(table, one);
    assert records == Step(table, none, one[0]) == none[q.id := NewMember(q)];
    assert SeatOf(table, q.(kind := kind))(records[q.id]);
    UpsertKeepsValidIff(table, records, q.(kind := kind));
  }

  /** A run that stores an ill-formed membership. */
  lemma IllFormedMembershipRun()
    ensures var q := Upsert("om_1", "ten_1", "org_1", None, "usr_1", None, "user");
            !AllValid(OrganizationTable, Run(OrganizationTable, [UpsertOp(q), UpsertOp(q.(kind := "robot"))]))
  {
    BadKindIsStored(OrganizationTable, Upsert("om_1", "ten_1", "org_1", None, "usr_1", None, "user"), "robot");
  }

  lemma StepKeepsValid(table: Table, records: Records, op: Op)
    requires AllValid(table, records)
    requires op.UpsertOp? ==> ValidChange(table, op.q)
    ensures AllValid(table, Step(table, records, op))
  {
    match op
    case UpsertOp(q) => UpsertKeepsValidIff(table, records, q);
    case UpdateOp(id, expected, status) =>
      if id in records { assert Validate(table, records[id]).None?; }
    case CascadeOp(who, status) =>
      forall k | k in records ensures Validate(table, Lowered(records[k], who, status)).None? {
        assert Validate(table, records[k]).None?;
      }
  }

  lemma {:induction false} RunsKeepValid(table: Table, ops: seq<Op>)
    requires forall i :: 0 <= i < |ops| && ops[i].UpsertOp? ==> ValidChange(table, ops[i].q)
    ensures AllValid(table, Run(table, ops))
  {
    if ops == [] {
    } else {
      var records, op := Run(table, ops[..|ops| - 1]), ops[|ops| - 1];
      RunsKeepValid(table, ops[..|ops| - 1]);
      StepKeepsValid(table, records, op);
    }
  }
}
