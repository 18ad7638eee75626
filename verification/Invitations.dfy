/** Organization invitations: created once, then accepted or revoked at most once. */
module Invitations {
  import opened Base
  import opened Text

  datatype Status = Pending | Accepted | Revoked | Expired

  datatype Invitation = Invitation(
    id: string, tenantId: string, organizationId: string, projectId: Option<string>, invitedEmail: Option<string>,
    invitedPrincipalId: Option<string>, tokenHash: string, roleId: string, status: Status, expiresAt: int,
    acceptedAt: Option<int>, createdBy: string, version: int, createdAt: int, updatedAt: int)

  datatype AcceptRequest = AcceptRequest(
    invitationId: string, principalId: string, organizationMemberId: string, projectMemberId: Option<string>,
    acceptedAt: int)

  datatype Error =
    | InvalidInvitationId | InvalidTenantId | InvalidOrganizationId | InvalidProjectId | InvalidPrincipalId
    | InvalidCreatedBy | InvalidTokenHash | InvalidRoleId | InvalidStatus | InvalidTimestamp | InvalidTarget
    | StaleResourceVersion | InvitationNotPending | InvitationNotAccepting | InvitationPrincipalMismatch

  type Invitations = map<string, Invitation>

  predicate AcceptsAt(status: Status, expiresAt: int, now: int) { status.Pending? && expiresAt > now }

  predicate IsLowerHex(c: char) { '0' <= c <= '9' || 'a' <= c <= 'f' }

  /** The part of the check that no later call changes the answer of. */
  function ValidateTerms(id: string, tenantId: string, organizationId: string, projectId: Option<string>,
                         email: Option<string>, principalId: Option<string>, tokenHash: string, roleId: string,
                         createdBy: string): Option<Error>
  {
    var hasEmail := email.Some? && Trim(email.value) != "" && '@' in Trim(email.value);
    if !("inv_" <= id) then Some(InvalidInvitationId)
    else if !("ten_" <= tenantId) then Some(InvalidTenantId)
    else if !("org_" <= organizationId) then Some(InvalidOrganizationId)
    else if projectId.Some? && !("prj_" <= projectId.value) then Some(InvalidProjectId)
    else if principalId.Some? && !("usr_" <= principalId.value) then Some(InvalidPrincipalId)
    else if hasEmail == principalId.Some? then Some(InvalidTarget)
    else if |tokenHash| != 64 || exists i | 0 <= i < |tokenHash| :: !IsLowerHex(tokenHash[i])
    then Some(InvalidTokenHash)
    else if Trim(roleId) == "" then Some(InvalidRoleId)
    else if !("usr_" <= createdBy || "svc_" <= createdBy || "sys_" <= createdBy) then Some(InvalidCreatedBy)
    else None
  }

  function Validate(v: Invitation): Option<Error>
  {
    var e := ValidateTerms(v.id, v.tenantId, v.organizationId, v.projectId, v.invitedEmail, v.invitedPrincipalId,
                           v.tokenHash, v.roleId, v.createdBy);
    if e.Some? then e
    else if v.expiresAt <= 0 || v.createdAt <= 0 || v.updatedAt <= 0 || v.version <= 0 then Some(InvalidTimestamp)
    else if v.status.Accepted? && v.acceptedAt.None? then Some(InvalidStatus)
    else None
  }

  function ValidateAccept(q: AcceptRequest): Option<Error>
  {
    if !("inv_" <= q.invitationId) then Some(InvalidInvitationId)
    else if !("usr_" <= q.principalId) then Some(InvalidPrincipalId)
    else if !("om_" <= q.organizationMemberId) then Some(InvalidInvitationId)
    else if q.projectMemberId.Some? && !("pm_" <= q.projectMemberId.value) then Some(InvalidInvitationId)
    else if q.acceptedAt <= 0 then Some(InvalidTimestamp)
    else None
  }

  // ---------- the operations on values ----------

  datatype Op =
    | Create(v: Invitation)
    | Revoke(id: string, expected: int, now: int)
    | Accept(q: AcceptRequest)

  ghost function Step(s: Invitations, op: Op): (Invitations, Result<Invitation, Error>)
  {
    match op
    case Create(v) =>
      if Validate(v).Some? then (s, Err(Validate(v).value)) else (s[v.id := v], Ok(v))
    case Revoke(id, expected, now) =>
      if id !in s then (s, Err(InvalidInvitationId))
      else if s[id].version != expected then (s, Err(StaleResourceVersion))
      else if !s[id].status.Pending? then (s, Err(InvitationNotPending))
      else
        var v := s[id].(status := Revoked, version := s[id].version + 1, updatedAt := now);
        (s[id := v], Ok(v))
    case Accept(q) =>
      if ValidateAccept(q).Some? then (s, Err(ValidateAccept(q).value))
      else if q.invitationId !in s then (s, Err(InvalidInvitationId))
      else
        var old_ := s[q.invitationId];
        if !AcceptsAt(old_.status, old_.expiresAt, q.acceptedAt) then (s, Err(InvitationNotAccepting))
        else if old_.invitedPrincipalId != Some(q.principalId) then (s, Err(InvitationPrincipalMismatch))
        else
          var v := old_.(status := Accepted, acceptedAt := Some(q.acceptedAt), version := old_.version + 1,
              updatedAt := q.acceptedAt);
          (s[q.invitationId := v], Ok(v))
  }

  // ---------- the store ----------

  class InvitationStore {
    var invitations: Invitations

    constructor ()
      ensures invitations == map[]
    {
      invitations := map[];
    }

    method CreateOrganizationInvitation(v: Invitation) returns (r: Result<Invitation, Error>)
      modifies this
      ensures (invitations, r) == Step(old(invitations), Create(v))
    {
      var e := Validate(v);
      if e.Some? { return Err(e.value); }
      invitations := invitations[v.id := v];
      return Ok(v);
    }

    method RevokeOrganizationInvitation(id: string, expected: int, now: int) returns (r: Result<Invitation, Error>)
      modifies this
      ensures (invitations, r) == Step(old(invitations), Revoke(id, expected, now))
    {
      if id !in invitations { return Err(InvalidInvitationId); }
      var v := invitations[id];
      if v.version != expected { return Err(StaleResourceVersion); }
      if v.status != Pending { return Err(InvitationNotPending); }
      v := v.(status := Revoked, version := v.version + 1, updatedAt := now);
      invitations := invitations[id := v];
      return Ok(v);
    }

    method AcceptOrganizationInvitation(q: AcceptRequest) returns (r: Result<Invitation, Error>)
      modifies this
      ensures (invitations, r) == Step(old(invitations), Accept(q))
    {
      var e := ValidateAccept(q);
      if e.Some? { return Err(e.value); }
      if q.invitationId !in invitations { return Err(InvalidInvitationId); }
      var v := invitations[q.invitationId];
      if !AcceptsAt(v.status, v.expiresAt, q.acceptedAt) { return Err(InvitationNotAccepting); }
      if v.invitedPrincipalId != Some(q.principalId) { return Err(InvitationPrincipalMismatch); }
      v := v.(status := Accepted, acceptedAt := Some(q.acceptedAt), version := v.version + 1,
          updatedAt := q.acceptedAt);
      invitations := invitations[q.invitationId := v];
      return Ok(v);
    }
  }

  // ---------- runs ----------

  ghost function Run(ops: seq<Op>): Invitations
  {
    if ops == [] then map[] else Step(Run(ops[..|ops| - 1]), ops[|ops| - 1]).0
  }

  /** Every created invitation brings an id that is not in the store. */
  ghost predicate FreshIds(ops: seq<Op>)
  {
    ops != [] ==>
      && FreshIds(ops[..|ops| - 1])
      && (ops[|ops| - 1].Create? ==> ops[|ops| - 1].v.id !in Run(ops[..|ops| - 1]))
  }

  lemma {:induction false} FreshPrefix(ops: seq<Op>, j: nat)
    requires FreshIds(ops) && j <= |ops|
    ensures FreshIds(ops[..j])
  {
    if j == |ops| {
      assert ops[..j] == ops;
    } else {
      assert ops[..|ops| - 1][..j] == ops[..j];
      FreshPrefix(ops[..|ops| - 1], j);
    }
  }

  /** The invitation a call is about. */
  function TargetOf(op: Op): string
  {
    match op
    case Create(v) => v.id
    case Revoke(id, _, _) => id
    case Accept(q) => q.invitationId
  }

  /** The invitation an accept or revoke call ends. */
  ghost predicate Ends(ops: seq<Op>, k: nat, id: string)
  {
    k < |ops| && !ops[k].Create? && Step(Run(ops[..k]), ops[k]).1.Ok? && id == TargetOf(ops[k])
  }

  /** What one call can do: nothing when it fails; otherwise touch its own invitation alone, which was pending,
      and leave it ended at the next version. An acceptance was made by the invited principal before expiry. */
  lemma StepEffect(s: Invitations, op: Op)
    ensures var (s', r) := Step(s, op);
            && (r.Err? ==> s' == s)
            && (!op.Create? && r.Ok? ==>
                  var id := if op.Revoke? then op.id else op.q.invitationId;
                  && id in s && s[id].status.Pending?
                  && s' == s[id := r.value] && r.value.version == s[id].version + 1
                  && r.value.status == (if op.Revoke? then Revoked else Accepted)
                  && r.value.updatedAt == (if op.Revoke? then op.now else op.q.acceptedAt)
                  && r.value.acceptedAt == (if op.Revoke? then s[id].acceptedAt else Some(op.q.acceptedAt))
                  && (op.Accept? ==>
                        s[id].invitedPrincipalId == Some(op.q.principalId) && op.q.acceptedAt < s[id].expiresAt))
  {}

  lemma StepKeepsEnded(s: Invitations, op: Op, id: string)
    requires id in s && !s[id].status.Pending? && (op.Create? ==> op.v.id !in s)
    ensures id in Step(s, op).0 && Step(s, op).0[id] == s[id]
  {}

  /** With fresh ids an invitation that is no longer pending never changes again. */
  lemma {:induction false} EndedStays(ops: seq<Op>, i: nat, id: string)
    requires FreshIds(ops) && i <= |ops| && id in Run(ops[..i]) && !Run(ops[..i])[id].status.Pending?
    ensures id in Run(ops) && Run(ops)[id] == Run(ops[..i])[id]
  {
    if i == |ops| {
      assert ops[..i] == ops;
    } else {
      var init := ops[..|ops| - 1];
      assert init[..i] == ops[..i];
      EndedStays(init, i, id);
      StepKeepsEnded(Run(init), ops[|ops| - 1], id);
    }
  }

  /** An ending call finds the invitation pending and leaves it ended. */
  lemma EndingEnds(ops: seq<Op>, k: nat, id: string)
    requires Ends(ops, k, id)
    ensures id in Run(ops[..k]) && Run(ops[..k])[id].status.Pending?
    ensures id in Run(ops[..k + 1]) && !Run(ops[..k + 1])[id].status.Pending?
  {
    assert ops[..k + 1][..k] == ops[..k];
    StepEffect(Run(ops[..k]), ops[k]);
  }

  /** One-time use: in every run at most one accept or revoke call succeeds for an invitation. */
  lemma AtMostOneEnding(ops: seq<Op>, i: nat, j: nat, id: string)
    requires FreshIds(ops) && i < j && Ends(ops, i, id)
    ensures !Ends(ops, j, id)
  {
    if j < |ops| {
      assert ops[..j][..i + 1] == ops[..i + 1];
      FreshPrefix(ops, j);
      EndingEnds(ops, i, id);
      EndedStays(ops[..j], i + 1, id);
      if Ends(ops, j, id) { EndingEnds(ops, j, id); }
    }
  }

  /** The record an accept or revoke call leaves of a pending invitation. */
  ghost function EndedBy(v: Invitation, op: Op): Invitation
    requires !op.Create?
  {
    if op.Revoke? then v.(status := Revoked, version := v.version + 1, updatedAt := op.now)
    else v.(status := Accepted, acceptedAt := Some(op.q.acceptedAt), version := v.version + 1,
        updatedAt := op.q.acceptedAt)
  }

  /** The call was entitled to end the invitation: at its version, or by the invited principal before expiry. */
  ghost predicate MayEnd(v: Invitation, op: Op)
  {
    && v.status.Pending?
    && (op.Revoke? ==> op.expected == v.version)
    && (op.Accept? ==> v.invitedPrincipalId == Some(op.q.principalId) && op.q.acceptedAt < v.expiresAt)
  }

  /** `created` is where the invitation was stored, `ended` where it was accepted or revoked, if it was. */
  ghost predicate IsHistory(ops: seq<Op>, id: string, w: Invitation, created: nat, ended: Option<nat>)
  {
    && created < |ops| && ops[created].Create? && ops[created].v.id == id && Validate(ops[created].v).None?
    && match ended
       case None => w == ops[created].v && forall k :: created < k < |ops| ==> !Ends(ops, k, id)
       case Some(k) => created < k && Ends(ops, k, id) && MayEnd(ops[created].v, ops[k])
                       && w == EndedBy(ops[created].v, ops[k])
  }

  lemma EndsInPrefix(ops: seq<Op>, n: nat, k: nat, id: string)
    requires k < n <= |ops|
    ensures Ends(ops[..n], k, id) <==> Ends(ops, k, id)
  {
    assert ops[..n][..k] == ops[..k];
  }

  lemma HistoryGrows(ops: seq<Op>, id: string, w: Invitation, created: nat, ended: Option<nat>)
    requires ops != [] && IsHistory(ops[..|ops| - 1], id, w, created, ended)
    requires ended.Some? || !Ends(ops, |ops| - 1, id)
    ensures IsHistory(ops, id, w, created, ended)
  {
    var n := |ops| - 1;
    if ended.Some? {
      EndsInPrefix(ops, n, ended.value, id);
    } else {
      forall k | created < k < n ensures !Ends(ops, k, id) { EndsInPrefix(ops, n, k, id); }
    }
  }

  /** A call that creates, ends or leaves alone the record under an id. */
  lemma StepOnRecord(s: Invitations, op: Op, id: string)
    requires id in Step(s, op).0 && (op.Create? ==> op.v.id !in s)
    ensures if op.Create? && op.v.id == id then Validate(op.v).None? && Step(s, op).0[id] == op.v
            else id in s
    ensures id in s ==>
              if !op.Create? && Step(s, op).1.Ok? && id == TargetOf(op)
              then MayEnd(s[id], op) && Step(s, op).0[id] == EndedBy(s[id], op)
              else Step(s, op).0[id] == s[id]
  {
  }

  lemma EndsAfterCreation(ops: seq<Op>, id: string, w: Invitation, created: nat, ended: Option<nat>)
    requires ops != [] && IsHistory(ops[..|ops| - 1], id, w, created, ended) && w.status.Pending?
    requires Ends(ops, |ops| - 1, id) && MayEnd(w, ops[|ops| - 1])
    ensures IsHistory(ops, id, EndedBy(w, ops[|ops| - 1]), created, Some(|ops| - 1))
  {
  }

  /** In every run with fresh ids each stored invitation is a valid one as it was created, ended by at most one
      call, and by one that was entitled to; nothing else about it has changed. */
  lemma {:induction false} History(ops: seq<Op>, id: string) returns (created: nat, ended: Option<nat>)
    requires FreshIds(ops) && id in Run(ops)
    ensures IsHistory(ops, id, Run(ops)[id], created, ended)
  {
    var n := |ops| - 1;
    var init, op := ops[..n], ops[n];
    StepOnRecord(Run(init), op, id);
    if op.Create? && op.v.id == id {
      created, ended := n, None;
    } else {
      created, ended := History(init, id);
      if Ends(ops, n, id) {
        EndsAfterCreation(ops, id, Run(init)[id], created, ended);
        ended := Some(n);
      } else {
        HistoryGrows(ops, id, Run(init)[id], created, ended);
      }
    }
  }

  ghost predicate AllValid(s: Invitations)
  {
    forall id :: id in s ==> s[id].id == id && Validate(s[id]).None?
  }

  lemma RevokedValidIff(v: Invitation, now: int)
    requires Validate(v).None?
    ensures Validate(v.(status := Revoked, version := v.version + 1, updatedAt := now)).None? <==> now > 0
  {}

  lemma AcceptedValid(v: Invitation, now: int)
    requires Validate(v).None? && now > 0
    ensures Validate(v.(status := Accepted, acceptedAt := Some(now), version := v.version + 1, updatedAt := now)).None?
  {}

  lemma PutKeepsValidIff(s: Invitations, v: Invitation)
    requires AllValid(s)
    ensures AllValid(s[v.id := v]) <==> Validate(v).None?
  {
    assert s[v.id := v][v.id] == v;
  }

  lemma RevokeKeepsValidIff(s: Invitations, op: Op)
    requires AllValid(s) && op.Revoke? && Step(s, op).1.Ok?
    ensures AllValid(Step(s, op).0) <==> op.now > 0
  {
    RevokedValidIff(s[op.id], op.now);
    PutKeepsValidIff(s, Step(s, op).1.value);
  }

  lemma AcceptKeepsValid(s: Invitations, op: Op)
    requires AllValid(s) && op.Accept? && Step(s, op).1.Ok?
    ensures AllValid(Step(s, op).0)
  {
    AcceptedValid(s[op.q.invitationId], op.q.acceptedAt);
    PutKeepsValidIff(s, Step(s, op).1.value);
  }

  /** Stored invitations stay valid under every call but a successful revoke at a time that is not positive. */
  lemma StepKeepsValidIff(s: Invitations, op: Op)
    requires AllValid(s)
    ensures AllValid(Step(s, op).0) <==> !(op.Revoke? && Step(s, op).1.Ok? && op.now <= 0)
  {
    if Step(s, op).1.Ok? {
      match op
      case Create(v) => PutKeepsValidIff(s, v);
      case Revoke(id, expected, now) => RevokeKeepsValidIff(s, op);
      case Accept(q) => AcceptKeepsValid(s, op);
    } else {
      StepEffect(s, op);
    }
  }

  /** It does happen: a pending invitation revoked at a time that is not positive is stored that way. */
  lemma BadRevokeIsStored(v: Invitation, now: int)
    requires Validate(v).None? && v.status.Pending? && now <= 0
    ensures !AllValid(Run([Create(v), Revoke(v.id, v.version, now)]))
  {
    var ops := [Create(v), Revoke(v.id, v.version, now)];
    assert ops[..1] == [ops[0]] && ops[..1][..0] == [];
    assert Run(ops[..1]) == map[v.id := v];
    StepKeepsValidIff(Run(ops[..1]), ops[1]);
  }

  /** A run that stores an invalid invitation. */
  lemma InvalidInvitationRun(v: Invitation)
    requires v == Invitation("inv_1", "ten_1", "org_1", None, None, Some("usr_1"), seq(64, _ => '0'), "member", Pending,
                             100, None, "usr_2", 1, 1, 1)
    ensures !AllValid(Run([Create(v), Revoke("inv_1", 1, 0)]))
  {
    BadRevokeIsStored(v, 0);
  }

  lemma {:induction false} RunsKeepValid(ops: seq<Op>)
    requires forall k :: 0 <= k < |ops| && ops[k].Revoke? ==> ops[k].now > 0
    ensures AllValid(Run(ops))
  {
    if ops == [] {
    } else {
      RunsKeepValid(ops[..|ops| - 1]);
      StepKeepsValidIff(Run(ops[..|ops| - 1]), ops[|ops| - 1]);
    }
  }

  // ---------- what a call does, field by field ----------

  ghost predicate NamesEmail(v: Invitation)
  {
    v.invitedEmail.Some? && '@' in Trim(v.invitedEmail.value)
  }

  /** What is wrong with a record that an error is about. */
  ghost predicate Wrong(v: Invitation, e: Error)
  {
    match e
    case InvalidInvitationId => !StartsWith(v.id, "inv_")
    case InvalidTenantId => !StartsWith(v.tenantId, "ten_")
    case InvalidOrganizationId => !StartsWith(v.organizationId, "org_")
    case InvalidProjectId => v.projectId.Some? && !StartsWith(v.projectId.value, "prj_")
    case InvalidPrincipalId => v.invitedPrincipalId.Some? && !StartsWith(v.invitedPrincipalId.value, "usr_")
    case InvalidTarget => NamesEmail(v) <==> v.invitedPrincipalId.Some?
    case InvalidTokenHash =>
      || |v.tokenHash| != 64
      || exists c :: c in v.tokenHash && c !in {'0', '1', '2', '3', '4', '5', '6', '7', '8', '9',
                                                'a', 'b', 'c', 'd', 'e', 'f'}
    case InvalidRoleId => Trim(v.roleId) == ""
    case InvalidCreatedBy =>
      !StartsWith(v.createdBy, "usr_") && !StartsWith(v.createdBy, "svc_") && !StartsWith(v.createdBy, "sys_")
    case InvalidTimestamp => v.expiresAt <= 0 || v.createdAt <= 0 || v.updatedAt <= 0 || v.version <= 0
    case InvalidStatus => v.status == Accepted && v.acceptedAt == None
    case _ => false
  }

  lemma TokenMeans(token: string)
    ensures (exists i | 0 <= i < |token| :: !IsLowerHex(token[i])) <==> exists c :: c in token && !IsLowerHex(c)
  {
    if i :| 0 <= i < |token| && !IsLowerHex(token[i]) { assert token[i] in token; }
  }

  lemma PrefixesMean(v: Invitation)
    ensures "inv_" <= v.id <==> StartsWith(v.id, "inv_")
    ensures "ten_" <= v.tenantId <==> StartsWith(v.tenantId, "ten_")
    ensures "org_" <= v.organizationId <==> StartsWith(v.organizationId, "org_")
    ensures v.projectId.Some? ==> ("prj_" <= v.projectId.value <==> StartsWith(v.projectId.value, "prj_"))
    ensures v.invitedPrincipalId.Some? ==>
              ("usr_" <= v.invitedPrincipalId.value <==> StartsWith(v.invitedPrincipalId.value, "usr_"))
    ensures "usr_" <= v.createdBy <==> StartsWith(v.createdBy, "usr_")
    ensures "svc_" <= v.createdBy <==> StartsWith(v.createdBy, "svc_")
    ensures "sys_" <= v.createdBy <==> StartsWith(v.createdBy, "sys_")
  {
    StartsWithMeans(v.id, "inv_");
    StartsWithMeans(v.tenantId, "ten_");
    StartsWithMeans(v.organizationId, "org_");
    if v.projectId.Some? { StartsWithMeans(v.projectId.value, "prj_"); }
    if v.invitedPrincipalId.Some? { StartsWithMeans(v.invitedPrincipalId.value, "usr_"); }
    StartsWithMeans(v.createdBy, "usr_");
    StartsWithMeans(v.createdBy, "svc_");
    StartsWithMeans(v.createdBy, "sys_");
  }

  /** A record is refused exactly when something is wrong with it, and with an error that is about that. */
  lemma ValidateMeans(v: Invitation)
    ensures match Validate(v)
            case None => forall e :: !Wrong(v, e)
            case Some(e) => Wrong(v, e)
  {
    PrefixesMean(v);
    TokenMeans(v.tokenHash);
  }

  /** A request to accept that is well formed. */
  ghost predicate WellFormed(q: AcceptRequest)
  {
    && StartsWith(q.invitationId, "inv_") && StartsWith(q.principalId, "usr_")
    && StartsWith(q.organizationMemberId, "om_")
    && (q.projectMemberId.Some? ==> StartsWith(q.projectMemberId.value, "pm_")) && q.acceptedAt > 0
  }

  lemma RequestMeans(q: AcceptRequest)
    ensures ValidateAccept(q).None? <==> WellFormed(q)
  {
    StartsWithMeans(q.invitationId, "inv_");
    StartsWithMeans(q.principalId, "usr_");
    StartsWithMeans(q.organizationMemberId, "om_");
    if q.projectMemberId.Some? { StartsWithMeans(q.projectMemberId.value, "pm_"); }
  }

  /** An accept succeeds exactly when the request is well formed and the invitation is stored, pending, not yet
      expired and for that principal; otherwise the error says which of these fails first. */
  lemma AcceptIff(s: Invitations, q: AcceptRequest)
    ensures var r, known := Step(s, Accept(q)).1, q.invitationId in s;
            && (r.Ok? <==>
                  && WellFormed(q) && known && s[q.invitationId].status == Pending
                  && q.acceptedAt < s[q.invitationId].expiresAt
                  && s[q.invitationId].invitedPrincipalId == Some(q.principalId))
            && (r == Err(InvitationNotAccepting) <==>
                  && WellFormed(q) && known
                  && (s[q.invitationId].status != Pending || s[q.invitationId].expiresAt <= q.acceptedAt))
            && (r == Err(InvitationPrincipalMismatch) <==>
                  && WellFormed(q) && known && s[q.invitationId].status == Pending
                  && q.acceptedAt < s[q.invitationId].expiresAt
                  && s[q.invitationId].invitedPrincipalId != Some(q.principalId))
            && (WellFormed(q) && !known ==> r == Err(InvalidInvitationId))
  {
    RequestMeans(q);
  }

  /** A revoke succeeds exactly when the invitation is stored at the expected version and pending; otherwise the
      error says which of these fails first. */
  lemma RevokeIff(s: Invitations, id: string, expected: int, now: int)
    ensures var r := Step(s, Revoke(id, expected, now)).1;
            && (r.Ok? <==> id in s && s[id].version == expected && s[id].status == Pending)
            && (r == Err(InvalidInvitationId) <==> id !in s)
            && (r == Err(StaleResourceVersion) <==> id in s && s[id].version != expected)
            && (r == Err(InvitationNotPending) <==> id in s && s[id].version == expected && s[id].status != Pending)
  {
  }

  /** No accept or revoke call of the run has ended the invitation. */
  ghost predicate NotEnded(ops: seq<Op>, id: string)
  {
    forall k :: 0 <= k < |ops| ==> !Ends(ops, k, id)
  }

  /** Until it is ended an invitation is stored as it was created. */
  lemma {:induction false} StoredAsCreated(ops: seq<Op>, i: nat)
    requires FreshIds(ops) && i < |ops| && ops[i].Create? && Validate(ops[i].v).None? && NotEnded(ops, ops[i].v.id)
    ensures ops[i].v.id in Run(ops) && Run(ops)[ops[i].v.id] == ops[i].v
  {
    var n, id := |ops| - 1, ops[i].v.id;
    var init := ops[..n];
    if i == n {
    } else {
      assert init[i] == ops[i];
      forall k | 0 <= k < n ensures !Ends(init, k, id) { EndsInPrefix(ops, n, k, id); }
      StoredAsCreated(init, i);
      assert !Ends(ops, n, id);
      StepOnRecord(Run(init), ops[n], id);
    }
  }

  lemma EndedIsNotPending(ops: seq<Op>, id: string)
    requires FreshIds(ops) && !NotEnded(ops, id)
    ensures id in Run(ops) && Run(ops)[id].status != Pending
  {
    var k :| 0 <= k < |ops| && Ends(ops, k, id);
    EndingEnds(ops, k, id);
    EndedStays(ops, k + 1, id);
  }

  lemma AcceptNeedsPending(s: Invitations, q: AcceptRequest)
    requires q.invitationId in s && s[q.invitationId].status != Pending
    ensures !Step(s, Accept(q)).1.Ok?
  {
    AcceptIff(s, q);
  }

  lemma AcceptOfPending(s: Invitations, q: AcceptRequest)
    requires WellFormed(q) && q.invitationId in s && s[q.invitationId].status == Pending
    ensures Step(s, Accept(q)).1.Ok? <==>
            && q.acceptedAt < s[q.invitationId].expiresAt
            && s[q.invitationId].invitedPrincipalId == Some(q.principalId)
  {
    AcceptIff(s, q);
  }

  /** In every run with fresh ids, a well-formed accept of an invitation created pending succeeds exactly when it is
      made by the invited principal before expiry and no call has ended the invitation yet. */
  lemma EntitledAcceptSucceeds(ops: seq<Op>, i: nat, q: AcceptRequest)
    requires FreshIds(ops) && i < |ops| && ops[i].Create? && Validate(ops[i].v).None? && ops[i].v.status == Pending
    requires WellFormed(q) && q.invitationId == ops[i].v.id
    ensures Step(Run(ops), Accept(q)).1.Ok? <==>
            && NotEnded(ops, q.invitationId) && q.acceptedAt < ops[i].v.expiresAt
            && ops[i].v.invitedPrincipalId == Some(q.principalId)
  {
    if NotEnded(ops, q.invitationId) {
      StoredAsCreated(ops, i);
      AcceptOfPending(Run(ops), q);
    } else {
      EndedIsNotPending(ops, q.invitationId);
      AcceptNeedsPending(Run(ops), q);
    }
  }
}
