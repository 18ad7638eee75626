/** External identity links: one record per provider subject, bound to one principal for good. */
module Identities {
  import opened Base
  import opened Text

  datatype Status = Active | Disabled | Deleted

  datatype Identity = Identity(
    id: string, tenantId: string, principalId: string, providerId: string, providerKind: string, subject: string,
    email: Option<string>, emailVerified: bool, status: Status)

  datatype Error =
    | InvalidExternalIdentityId | InvalidTenantId | InvalidPrincipalId | InvalidProviderId | InvalidProviderKind
    | SubjectRequired | InvalidEmail | PrincipalMismatch

  type Identities = map<string, Identity>

  predicate Prefixed(s: string, prefix: string) { prefix <= s && |s| > |prefix| }

  predicate ValidEmail(email: string)
  {
    var e := Trim(email);
    e != "" && '@' in e && e[0] != '@' && e[|e| - 1] != '@'
  }

  function Validate(r: Identity): Option<Error>
  {
    if !Prefixed(r.id, "xid_") then Some(InvalidExternalIdentityId)
    else if !Prefixed(r.tenantId, "ten_") then Some(InvalidTenantId)
    else if !Prefixed(r.principalId, "usr_") then Some(InvalidPrincipalId)
    else if !Prefixed(r.providerId, "idp_") then Some(InvalidProviderId)
    else if !(r.providerKind == "oidc" || r.providerKind == "single_user") then Some(InvalidProviderKind)
    else if Trim(r.subject) == "" then Some(SubjectRequired)
    else if r.email.Some? && !ValidEmail(r.email.value) then Some(InvalidEmail)
    else None
  }

  function Checked(r: Identity): Result<Identity, Error>
  {
    var e := Validate(r);
    if e.Some? then Err(e.value) else Ok(r)
  }

  // ---------- the operations on values ----------

  predicate SameSubject(r: Identity, tenantId: string, providerId: string, subject: string)
  {
    r.tenantId == tenantId && r.providerId == providerId && r.subject == subject
  }

  function SubjectOf(q: Identity): Identity -> bool
  {
    (r: Identity) => SameSubject(r, q.tenantId, q.providerId, q.subject)
  }

  function Relinked(r: Identity, q: Identity): Identity
  {
    r.(providerKind := q.providerKind, email := q.email, emailVerified := q.emailVerified, status := Active)
  }

  datatype Op = Upsert(q: Identity) | Unlink(id: string)

  ghost function Step(s: Identities, op: Op): (Identities, Result<Identity, Error>)
  {
    match op
    case Upsert(q) =>
      if Validate(q).Some? then (s, Err(Validate(q).value))
      else
        var existing := FirstKey(s, SubjectOf(q));
        if existing.None? then (s[q.id := q], Checked(q))
        else
          var r := s[existing.value];
          if r.principalId != q.principalId then (s, Err(PrincipalMismatch))
          else (s[existing.value := Relinked(r, q)], Checked(Relinked(r, q)))
    case Unlink(id) =>
      if id !in s then (s, Err(InvalidExternalIdentityId))
      else (s[id := s[id].(status := Deleted)], Checked(s[id].(status := Deleted)))
  }

  // ---------- the store ----------

  class IdentityStore {
    var identities: Identities

    constructor ()
      ensures identities == map[]
    {
      identities := map[];
    }

    method UpsertExternalIdentity(q: Identity) returns (r: Result<Identity, Error>)
      modifies this
      ensures (identities, r) == Step(old(identities), Upsert(q))
    {
      var e := Validate(q);
      if e.Some? { return Err(e.value); }
      var existing := FindFirst(identities, SubjectOf(q));
      var upserted := q;
      if existing.Some? {
        upserted := identities[existing.value];
        if upserted.principalId != q.principalId { return Err(PrincipalMismatch); }
        upserted := Relinked(upserted, q);
        identities := identities[existing.value := upserted];
      } else {
        identities := identities[q.id := q];
      }
      return Checked(upserted);
    }

    method UnlinkExternalIdentity(id: string) returns (r: Result<Identity, Error>)
      modifies this
      ensures (identities, r) == Step(old(identities), Unlink(id))
    {
      if id !in identities { return Err(InvalidExternalIdentityId); }
      var unlinked := identities[id].(status := Deleted);
      identities := identities[id := unlinked];
      return Checked(unlinked);
    }
  }

  // ---------- runs ----------

  ghost function Run(ops: seq<Op>): Identities
  {
    if ops == [] then map[] else Step(Run(ops[..|ops| - 1]), ops[|ops| - 1]).0
  }

  /** Every record sits under its own id and shares its provider subject with no other. */
  ghost predicate OneLinkEach(s: Identities)
  {
    && (forall k :: k in s ==> s[k].id == k)
    && (forall k, l :: k in s && l in s && k != l ==> !SameSubject(s[k], s[l].tenantId, s[l].providerId, s[l].subject))
  }

  ghost predicate AllValid(s: Identities)
  {
    forall k :: k in s ==> Validate(s[k]).None?
  }

  ghost predicate Sound(s: Identities) { OneLinkEach(s) && AllValid(s) }

  /** A link: which principal a provider subject belongs to. */
  ghost predicate SameLink(r: Identity, s: Identity)
  {
    s == r.(providerKind := s.providerKind, email := s.email, emailVerified := s.emailVerified, status := s.status)
  }

  lemma InsertKeepsLinks(s: Identities, q: Identity)
    requires OneLinkEach(s) && FirstKey(s, SubjectOf(q)).None?
    ensures OneLinkEach(s[q.id := q])
  {
    assert forall k :: k in s ==> !SubjectOf(q)(s[k]);
  }

  lemma ChangeKeepsLinks(s: Identities, k: string, r: Identity)
    requires OneLinkEach(s) && k in s && SameLink(s[k], r)
    ensures OneLinkEach(s[k := r])
  {}

  /** Relinking and unlinking keep a valid record valid. */
  lemma ChangesKeepValid(r: Identity, q: Identity)
    requires Validate(r).None? && Validate(q).None?
    ensures Validate(Relinked(r, q)).None? && Validate(r.(status := Deleted)).None?
  {}

  lemma PutKeepsValid(s: Identities, k: string, r: Identity)
    requires AllValid(s) && Validate(r).None?
    ensures AllValid(s[k := r])
  {}

  lemma StepSound(s: Identities, op: Op)
    requires Sound(s)
    ensures Sound(Step(s, op).0)
    ensures Step(s, op).1.Err? ==> Step(s, op).0 == s
  {
    match op
    case Upsert(q) => UpsertSound(s, q);
    case Unlink(id) =>
      if id in s {
        var r := s[id];
        ChangesKeepValid(r, r);
        ChangeKeepsLinks(s, id, r.(status := Deleted));
        PutKeepsValid(s, id, r.(status := Deleted));
      }
  }

  lemma UpsertSound(s: Identities, q: Identity)
    requires Sound(s)
    ensures Sound(Step(s, Upsert(q)).0)
    ensures Step(s, Upsert(q)).1.Err? ==> Step(s, Upsert(q)).0 == s
  {
    if Validate(q).None? {
      var first := FirstKey(s, SubjectOf(q));
      if first.None? {
        InsertKeepsLinks(s, q);
        PutKeepsValid(s, q.id, q);
      } else {
        var r := s[first.value];
        ChangesKeepValid(r, q);
        ChangeKeepsLinks(s, first.value, Relinked(r, q));
        PutKeepsValid(s, first.value, Relinked(r, q));
      }
    }
  }

  /** The record is of the tenant, provider and subject of the request. */
  ghost predicate OfSubject(r: Identity, q: Identity)
  {
    r.tenantId == q.tenantId && r.providerId == q.providerId && r.subject == q.subject
  }

  /** A successful upsert leaves one record for the subject, of the same principal, with the given provider kind
      and email; a record that was there is active again under its old id. */
  lemma UpsertOutcome(s: Identities, q: Identity)
    requires Sound(s) && Step(s, Upsert(q)).1.Ok?
    ensures var (s', r) := Step(s, Upsert(q));
            && s' == s[r.value.id := r.value] && OfSubject(r.value, q) && r.value.principalId == q.principalId
            && r.value.providerKind == q.providerKind && r.value.email == q.email
            && r.value.emailVerified == q.emailVerified
            && (if FirstKey(s, SubjectOf(q)).None? then r.value == q else r.value.id in s && r.value.status == Active)
  {}

  lemma {:induction false} RunsAreSound(ops: seq<Op>)
    ensures Sound(Run(ops))
  {
    if ops == [] {
    } else {
      RunsAreSound(ops[..|ops| - 1]);
      StepSound(Run(ops[..|ops| - 1]), ops[|ops| - 1]);
    }
  }

  ghost predicate Unused(s: Identities, op: Op)
  {
    op.Upsert? && FirstKey(s, SubjectOf(op.q)).None? ==> op.q.id !in s
  }

  ghost predicate AllUnused(ops: seq<Op>)
  {
    ops != [] ==> AllUnused(ops[..|ops| - 1]) && Unused(Run(ops[..|ops| - 1]), ops[|ops| - 1])
  }

  lemma {:induction false} UnusedPrefix(ops: seq<Op>, j: nat)
    requires AllUnused(ops) && j <= |ops|
    ensures AllUnused(ops[..j])
  {
    if j == |ops| {
      assert ops[..j] == ops;
    } else {
      assert ops[..|ops| - 1][..j] == ops[..j];
      UnusedPrefix(ops[..|ops| - 1], j);
    }
  }

  lemma StepKeepsLink(s: Identities, op: Op, id: string)
    requires Unused(s, op) && id in s
    ensures id in Step(s, op).0 && SameLink(s[id], Step(s, op).0[id])
  {}

  /** Links never move: with unused ids for inserts, a record stays, for the same subject and the same
      principal, through every unlink and relink. */
  lemma {:induction false} LinksNeverMove(ops: seq<Op>, i: nat, id: string)
    requires AllUnused(ops) && i <= |ops| && id in Run(ops[..i])
    ensures id in Run(ops) && SameLink(Run(ops[..i])[id], Run(ops)[id])
  {
    if i == |ops| {
      assert ops[..i] == ops;
    } else {
      var init := ops[..|ops| - 1];
      assert init[..i] == ops[..i];
      LinksNeverMove(init, i, id);
      StepKeepsLink(Run(init), ops[|ops| - 1], id);
    }
  }

  /** An upsert for a subject that belongs to another principal is refused and changes nothing; in a run, no
      principal but the first ever gets the subject. */
  lemma MismatchIsRefused(ops: seq<Op>, i: nat, id: string, q: Identity)
    requires AllUnused(ops) && i <= |ops| && id in Run(ops[..i])
    requires SubjectOf(q)(Run(ops[..i])[id]) && Validate(q).None? && q.principalId != Run(ops[..i])[id].principalId
    ensures Step(Run(ops), Upsert(q)) == (Run(ops), Err(PrincipalMismatch))
  {
    LinksNeverMove(ops, i, id);
    RunsAreSound(ops);
    var k := FirstKey(Run(ops), SubjectOf(q));
    assert SubjectOf(q)(Run(ops)[id]);
    assert k == Some(id);
  }

  /** What the upsert at `i` answered. */
  ghost function AnswerAt(ops: seq<Op>, i: nat): Result<Identity, Error>
    requires i < |ops|
  {
    Step(Run(ops[..i]), ops[i]).1
  }

  lemma AnswerIsStored(ops: seq<Op>, i: nat)
    requires i < |ops| && ops[i].Upsert? && AnswerAt(ops, i).Ok?
    ensures var r := AnswerAt(ops, i).value;
            r.id in Run(ops[..i + 1]) && Run(ops[..i + 1])[r.id] == r && SubjectOf(ops[i].q)(r)
  {
    assert ops[..i + 1][..i] == ops[..i];
    RunsAreSound(ops[..i]);
    UpsertOutcome(Run(ops[..i]), ops[i].q);
  }

  /** A successful upsert of a linked subject answers with the record of the link. */
  lemma AnswerIsTheLink(s: Identities, q: Identity, id: string)
    requires Sound(s) && id in s && SubjectOf(q)(s[id]) && Step(s, Upsert(q)).1.Ok?
    ensures Step(s, Upsert(q)).1.value.id == id && Step(s, Upsert(q)).1.value.principalId == s[id].principalId
  {
    FindsTheLink(s, q, id);
  }

  /** In every run all successful upserts of one provider subject answer with the same record id and principal,
      whatever is unlinked in between. */
  lemma OneIdPerSubject(ops: seq<Op>, i: nat, j: nat)
    requires AllUnused(ops) && i < j < |ops| && ops[i].Upsert? && ops[j].Upsert? && SubjectOf(ops[j].q)(ops[i].q)
    requires AnswerAt(ops, i).Ok? && AnswerAt(ops, j).Ok?
    ensures AnswerAt(ops, i).value.id == AnswerAt(ops, j).value.id
    ensures AnswerAt(ops, i).value.principalId == AnswerAt(ops, j).value.principalId
  {
    var upToJ, id := ops[..j], AnswerAt(ops, i).value.id;
    assert upToJ[..i + 1] == ops[..i + 1];
    UnusedPrefix(ops, j);
    AnswerIsStored(ops, i);
    LinksNeverMove(upToJ, i + 1, id);
    RunsAreSound(upToJ);
    AnswerIsTheLink(Run(upToJ), ops[j].q, id);
  }

  lemma FindsTheLink(s: Identities, q: Identity, id: string)
    requires OneLinkEach(s) && id in s && SubjectOf(q)(s[id])
    ensures FirstKey(s, SubjectOf(q)) == Some(id)
  {
    var first := FirstKey(s, SubjectOf(q));
    assert SubjectOf(q)(s[first.value]);
  }

  // ---------- what a call does, field by field ----------

  /** The prefix, and something after it. */
  ghost predicate IsId(s: string, prefix: string) { StartsWith(s, prefix) && s != prefix }

  lemma IsIdMeans(s: string, prefix: string)
    ensures Prefixed(s, prefix) <==> IsId(s, prefix)
  {
    StartsWithMeans(s, prefix);
  }

  /** What is wrong with a record that an error is about. */
  ghost predicate Wrong(r: Identity, e: Error)
  {
    match e
    case InvalidExternalIdentityId => !IsId(r.id, "xid_")
    case InvalidTenantId => !IsId(r.tenantId, "ten_")
    case InvalidPrincipalId => !IsId(r.principalId, "usr_")
    case InvalidProviderId => !IsId(r.providerId, "idp_")
    case InvalidProviderKind => r.providerKind != "oidc" && r.providerKind != "single_user"
    case SubjectRequired => Trim(r.subject) == ""
    case InvalidEmail =>
      && r.email.Some?
      && var e := Trim(r.email.value);
      '@' !in e || (exists rest :: e == "@" + rest) || (exists rest :: e == rest + "@")
    case PrincipalMismatch => false
  }

  lemma EmailMeans(email: string)
    ensures ValidEmail(email) <==>
            var e := Trim(email);
            '@' in e && (forall rest :: e != "@" + rest) && (forall rest :: e != rest + "@")
  {
    var e := Trim(email);
    if e != "" {
      if e[0] == '@' { assert e == "@" + e[1..]; }
      if e[|e| - 1] == '@' { assert e == e[..|e| - 1] + "@"; }
    }
  }

  /** A record is refused exactly when something is wrong with it, and with an error that is about that. */
  lemma ValidateMeans(r: Identity)
    ensures match Validate(r)
            case None => forall e :: !Wrong(r, e)
            case Some(e) => Wrong(r, e)
  {
    IsIdMeans(r.id, "xid_");
    IsIdMeans(r.tenantId, "ten_");
    IsIdMeans(r.principalId, "usr_");
    IsIdMeans(r.providerId, "idp_");
    if r.email.Some? { EmailMeans(r.email.value); }
  }

  /** An upsert succeeds exactly when nothing is wrong with it and the subject is free or the principal's own. */
  lemma UpsertSucceedsIff(s: Identities, q: Identity)
    requires Sound(s)
    ensures Step(s, Upsert(q)).1.Ok? <==>
            && (forall e :: !Wrong(q, e))
            && forall k :: k in s && OfSubject(s[k], q) ==> s[k].principalId == q.principalId
    ensures var r := Step(s, Upsert(q)).1;
            r.Err? ==> Wrong(q, r.error) || r.error == PrincipalMismatch
  {
    ValidateMeans(q);
    UpsertSound(s, q);
    var first := FirstKey(s, SubjectOf(q));
    if first.Some? {
      forall k | k in s && OfSubject(s[k], q) ensures k == first.value { FindsTheLink(s, q, k); }
      if Validate(q).None? { ChangesKeepValid(s[first.value], q); }
    }
  }

  /** In every run two records differ in tenant, provider or subject. */
  lemma SubjectsAreUnique(ops: seq<Op>, k: string, l: string)
    requires k in Run(ops) && l in Run(ops) && k != l
    ensures var r, s := Run(ops)[k], Run(ops)[l];
            r.tenantId != s.tenantId || r.providerId != s.providerId || r.subject != s.subject
  {
    RunsAreSound(ops);
  }

  /** An unlink of a known id succeeds, deletes that record and changes nothing else. */
  lemma UnlinkMeans(s: Identities, id: string)
    requires Sound(s)
    ensures var (after, r) := Step(s, Unlink(id));
            if id in s then after == s[id := s[id].(status := Deleted)] && r == Ok(s[id].(status := Deleted))
            else after == s && r == Err(InvalidExternalIdentityId)
  {
    if id in s { ChangesKeepValid(s[id], s[id]); }
  }

  /** Some upsert from operation `n` on is of that record's subject. */
  ghost predicate UpsertedFrom(ops: seq<Op>, n: nat, r: Identity)
  {
    exists k :: n <= k < |ops| && ops[k].Upsert? && OfSubject(r, ops[k].q)
  }

  lemma OtherStep(s: Identities, op: Op, id: string)
    requires Sound(s) && Unused(s, op) && id in s && (op.Upsert? ==> !OfSubject(s[id], op.q))
    ensures id in Step(s, op).0
    ensures Step(s, op).0[id] == s[id] || Step(s, op).0[id] == s[id].(status := Deleted)
  {
    UpsertSound(s, if op.Upsert? then op.q else s[id]);
  }

  /** In every run whose inserts bring unused ids: an unlinked record stays, deleted and otherwise as it was, until
      its subject is upserted again. */
  lemma {:induction false} DeletedUntilUpserted(ops: seq<Op>, i: nat)
    requires AllUnused(ops) && i < |ops| && ops[i].Unlink? && ops[i].id in Run(ops[..i])
    requires !UpsertedFrom(ops, i, Run(ops[..i])[ops[i].id])
    ensures var id := ops[i].id;
            id in Run(ops) && Run(ops)[id] == Run(ops[..i])[id].(status := Deleted)
  {
    var init, op := ops[..|ops| - 1], ops[|ops| - 1];
    RunsAreSound(init);
    if i == |init| {
      UnlinkMeans(Run(init), op.id);
    } else {
      assert init[..i] == ops[..i] && init[i] == ops[i];
      assert !UpsertedFrom(init, i, Run(ops[..i])[ops[i].id]) by {
        assert forall k :: i <= k < |init| ==> init[k] == ops[k];
      }
      DeletedUntilUpserted(init, i);
      OtherStep(Run(init), op, ops[i].id);
    }
  }
}
