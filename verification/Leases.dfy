/** Runtime budget leases, kept under their own key and in a hash per tenant. The two copies are written one
    after the other and either write can fail; release reads the key, the sweep reads the hash. */
module Leases {
  import opened Base

  const RESERVED := "reserved"
  const RELEASED := "released"
  const EXPIRED := "expired"

  datatype Lease = Lease(
    id: string, tenantId: string, budgetPolicyId: string, counterKey: string, requestId: string, amount: int,
    status: string, expiresAt: int, createdAt: int, updatedAt: int)

  /** `hash[(t, id)]` is field `id` of the hash of tenant `t`. */
  datatype LeaseState = LeaseState(keys: map<string, Lease>, hash: map<(string, string), Lease>)

  datatype Fates = Fates(key: Fate, hash: Fate)

  datatype Op =
    | Record(lease: Lease, fates: Fates)
    | Release(id: string, now: int, readOk: bool, fates: Fates)
    | Expire(tenantId: string, now: int, readOk: bool, fatesOf: string -> Fates)

  // ---------- the operations on values ----------

  ghost function Write(s: LeaseState, l: Lease, f: Fates): (LeaseState, bool)
  {
    var s1 := if f.key.Lands() then s.(keys := s.keys[l.id := l]) else s;
    if !f.key.Done? then (s1, false)
    else (if f.hash.Lands() then s1.(hash := s1.hash[(l.tenantId, l.id) := l]) else s1, f.hash.Done?)
  }

  function Ended(l: Lease, status: string, now: int): Lease { l.(status := status, updatedAt := now) }

  predicate IsDue(l: Lease, now: int) { l.status == RESERVED && l.expiresAt <= now }

  ghost predicate Due(s: LeaseState, tenantId: string, now: int, id: string)
  {
    (tenantId, id) in s.hash && IsDue(s.hash[(tenantId, id)], now)
  }

  function FieldsOf(hash: map<(string, string), Lease>, tenantId: string): set<string>
  {
    set field | field in hash && field.0 == tenantId :: field.1
  }

  ghost predicate KeyLands(s: LeaseState, tenantId: string, now: int, fatesOf: string -> Fates, id: string)
  {
    Due(s, tenantId, now, id) && fatesOf(id).key.Lands()
  }

  ghost predicate HashLands(s: LeaseState, tenantId: string, now: int, fatesOf: string -> Fates, id: string)
  {
    Due(s, tenantId, now, id) && fatesOf(id).key.Done? && fatesOf(id).hash.Lands()
  }

  /** The sweep, all at once, over the due leases among `ids`. */
  ghost function Sweep(s: LeaseState, tenantId: string, now: int, fatesOf: string -> Fates,
                       ids: set<string>): LeaseState
  {
    LeaseState(SweepKeys(s, tenantId, now, fatesOf, ids), SweepHash(s, tenantId, now, fatesOf, ids))
  }

  ghost function SweepKeys(s: LeaseState, tenantId: string, now: int, fatesOf: string -> Fates, ids: set<string>)
    : map<string, Lease>
  {
    map id | id in s.keys.Keys + ids && (id in s.keys || KeyLands(s, tenantId, now, fatesOf, id)) ::
      if id in ids && KeyLands(s, tenantId, now, fatesOf, id) then Ended(s.hash[(tenantId, id)], EXPIRED, now)
      else s.keys[id]
  }

  ghost function SweepHash(s: LeaseState, tenantId: string, now: int, fatesOf: string -> Fates, ids: set<string>)
    : map<(string, string), Lease>
  {
    map field | field in s.hash ::
      if field.0 == tenantId && field.1 in ids && HashLands(s, tenantId, now, fatesOf, field.1)
      then Ended(s.hash[field], EXPIRED, now) else s.hash[field]
  }

  ghost function Swept(s: LeaseState, tenantId: string, now: int, fatesOf: string -> Fates,
                       ids: set<string>): map<string, Lease>
  {
    map id | id in ids && Due(s, tenantId, now, id) && fatesOf(id) == Fates(Done, Done) ::
      Ended(s.hash[(tenantId, id)], EXPIRED, now)
  }

  /** One operation: the new state and the leases it hands back to its caller. */
  ghost function Step(s: LeaseState, op: Op): (LeaseState, map<string, Lease>)
  {
    match op
    case Record(l, f) => (Write(s, l, f).0, map[])
    case Release(id, now, readOk, f) =>
      if !readOk || id !in s.keys || s.keys[id].status != RESERVED then (s, map[])
      else
        var l := Ended(s.keys[id], RELEASED, now);
        (Write(s, l, f).0, if Write(s, l, f).1 then map[id := l] else map[])
    case Expire(t, now, readOk, fatesOf) =>
      if !readOk then (s, map[])
      else (Sweep(s, t, now, fatesOf, FieldsOf(s.hash, t)), Swept(s, t, now, fatesOf, FieldsOf(s.hash, t)))
  }

  // ---------- the store ----------

  /** Each copy sits under the ids its record carries. */
  ghost predicate WellKeyed(s: LeaseState)
  {
    && (forall id :: id in s.keys ==> s.keys[id].id == id)
    && (forall field :: field in s.hash ==> (s.hash[field].tenantId, s.hash[field].id) == field)
  }

  class LeaseStore {
    var keys: map<string, Lease>
    var hash: map<(string, string), Lease>

    ghost function State(): LeaseState
      reads this
    {
      LeaseState(keys, hash)
    }

    ghost predicate Valid()
      reads this
    {
      WellKeyed(State())
    }

    constructor ()
      ensures Valid() && State() == LeaseState(map[], map[])
    {
      keys, hash := map[], map[];
    }

    method WriteBudgetLease(l: Lease, f: Fates) returns (ok: bool)
      requires Valid()
      modifies this
      ensures Valid() && (State(), ok) == Write(old(State()), l, f)
    {
      if f.key.Lands() { keys := keys[l.id := l]; }
      if !f.key.Done? { return false; }
      if f.hash.Lands() { hash := hash[(l.tenantId, l.id) := l]; }
      return f.hash.Done?;
    }

    method RecordRuntimeBudgetLease(l: Lease, f: Fates)
      requires Valid()
      modifies this
      ensures Valid() && State() == Step(old(State()), Record(l, f)).0
    {
      var _ := WriteBudgetLease(l, f);
    }

    method ReleaseRuntimeBudgetLease(id: string, now: int, readOk: bool, f: Fates) returns (r: Option<Lease>)
      requires Valid()
      modifies this
      ensures Valid()
      ensures (State(), if r.Some? then map[id := r.value] else map[])
              == Step(old(State()), Release(id, now, readOk, f))
    {
      if !readOk || id !in keys || keys[id].status != RESERVED { return None; }
      var lease := Ended(keys[id], RELEASED, now);
      var ok := WriteBudgetLease(lease, f);
      return if ok then Some(lease) else None;
    }

    method ExpireRuntimeBudgetLeases(tenantId: string, now: int, readOk: bool, fatesOf: string -> Fates)
      returns (expired: seq<Lease>)
      requires Valid()
      modifies this
      ensures Valid()
      ensures State() == Step(old(State()), Expire(tenantId, now, readOk, fatesOf)).0
      ensures IsListing(expired, Step(old(State()), Expire(tenantId, now, readOk, fatesOf)).1)
    {
      expired := [];
      if readOk {
        expired := SweepTenant(tenantId, now, fatesOf);
        SortListing(expired, Swept(old(State()), tenantId, now, fatesOf, FieldsOf(old(hash), tenantId)));
        expired := SortBy(expired, LeaseIdLeq);
      }
    }

    method SweepTenant(tenantId: string, now: int, fatesOf: string -> Fates) returns (expired: seq<Lease>)
      requires Valid()
      modifies this
      ensures Valid()
      ensures State() == Sweep(old(State()), tenantId, now, fatesOf, FieldsOf(old(hash), tenantId))
      ensures Lists(expired, Swept(old(State()), tenantId, now, fatesOf, FieldsOf(old(hash), tenantId)))
    {
      expired := [];
      ghost var s := State();
      var leases, todo := hash, FieldsOf(hash, tenantId);
      ghost var all, done: set<string> := todo, {};
      SweepNothing(s, tenantId, now, fatesOf);
      while todo != {}
        invariant Valid() && leases == s.hash
        invariant forall id :: id in all ==> (tenantId, id) in leases
        invariant Splits(all, done, todo)
        invariant State() == Sweep(s, tenantId, now, fatesOf, done)
        invariant Lists(expired, Swept(s, tenantId, now, fatesOf, done))
        decreases |todo|
      {
        var id :| id in todo;
        MoveOne(all, done, todo, id);
        SweepOne(s, tenantId, now, fatesOf, done, id);
        SweptOne(s, tenantId, now, fatesOf, done, id, expired);
        expired := ExpireLease(leases[(tenantId, id)], now, fatesOf(id), expired);
        todo, done := todo - {id}, done + {id};
      }
      assert done == all;
    }

    /** The body of the sweep's loop: end one lease if it is due, and list it if both writes were done. */
    method ExpireLease(lease: Lease, now: int, f: Fates, expired: seq<Lease>) returns (expired': seq<Lease>)
      requires Valid()
      modifies this
      ensures Valid()
      ensures State() == if IsDue(lease, now) then Write(old(State()), Ended(lease, EXPIRED, now), f).0
                         else old(State())
      ensures expired' == ListedNext(expired, lease, now, f)
    {
      expired' := expired;
      if IsDue(lease, now) {
        var ok := WriteBudgetLease(Ended(lease, EXPIRED, now), f);
        if ok { expired' := expired + [Ended(lease, EXPIRED, now)]; }
      }
    }
  }

  ghost predicate Splits(all: set<string>, done: set<string>, todo: set<string>)
  {
    all == done + todo && done !! todo
  }

  lemma MoveOne(all: set<string>, done: set<string>, todo: set<string>, id: string)
    requires Splits(all, done, todo) && id in todo
    ensures Splits(all, done + {id}, todo - {id}) && |todo - {id}| < |todo|
  {}

  lemma ListOneMore(list: seq<Lease>, m: map<string, Lease>, l: Lease)
    requires Lists(list, m) && l.id !in m
    ensures Lists(list + [l], m[l.id := l])
  {
    UniqueAppend(list, l, LeaseId);
  }

  predicate LeaseIdLeq(l: Lease, m: Lease) { Leq(l.id, m.id) }

  function LeaseId(l: Lease): string { l.id }

  /** The list holds every lease of the map once. */
  ghost predicate Lists(list: seq<Lease>, m: map<string, Lease>)
  {
    UniqueBy(list, LeaseId) && forall l :: l in list <==> l.id in m && m[l.id] == l
  }

  /** The list holds every lease of the map once, by ascending lease id. */
  ghost predicate IsListing(list: seq<Lease>, m: map<string, Lease>)
  {
    Lists(list, m) && forall i, j :: 0 <= i < j < |list| ==> Leq(list[i].id, list[j].id)
  }

  lemma SortListing(list: seq<Lease>, m: map<string, Lease>)
    requires Lists(list, m)
    ensures IsListing(SortBy(list, LeaseIdLeq), m)
  {
    forall a, b ensures LeaseIdLeq(a, b) || LeaseIdLeq(b, a) { LeqTotal(a.id, b.id); }
    forall a, b, c | LeaseIdLeq(a, b) && LeaseIdLeq(b, c) ensures LeaseIdLeq(a, c) { LeqTransitive(a.id, b.id, c.id); }
    SortBySorted(list, LeaseIdLeq);
    UniquePermuted(list, SortBy(list, LeaseIdLeq), LeaseId);
  }

  lemma SweepNothing(s: LeaseState, tenantId: string, now: int, fatesOf: string -> Fates)
    ensures Sweep(s, tenantId, now, fatesOf, {}) == s && Swept(s, tenantId, now, fatesOf, {}) == map[]
  {
    assert Sweep(s, tenantId, now, fatesOf, {}).keys == s.keys;
  }

  /** Sweeping one more lease is one more pair of writes. */
  lemma SweepOne(s: LeaseState, tenantId: string, now: int, fatesOf: string -> Fates, done: set<string>, id: string)
    requires WellKeyed(s) && (tenantId, id) in s.hash && id !in done
    ensures var before, after := Sweep(s, tenantId, now, fatesOf, done), Sweep(s, tenantId, now, fatesOf, done + {id});
            var lease := Ended(s.hash[(tenantId, id)], EXPIRED, now);
            after == if Due(s, tenantId, now, id) then Write(before, lease, fatesOf(id)).0 else before
  {
    SweepOneKey(s, tenantId, now, fatesOf, done, id);
    SweepOneHash(s, tenantId, now, fatesOf, done, id);
  }

  lemma SweepOneKey(s: LeaseState, tenantId: string, now: int, fatesOf: string -> Fates, done: set<string>, id: string)
    requires (tenantId, id) in s.hash && id !in done
    ensures SweepKeys(s, tenantId, now, fatesOf, done + {id}) ==
            if KeyLands(s, tenantId, now, fatesOf, id)
            then SweepKeys(s, tenantId, now, fatesOf, done)[id := Ended(s.hash[(tenantId, id)], EXPIRED, now)]
            else SweepKeys(s, tenantId, now, fatesOf, done)
  {}

  lemma SweepOneHash(s: LeaseState, tenantId: string, now: int, fatesOf: string -> Fates, done: set<string>, id: string)
    requires (tenantId, id) in s.hash && id !in done
    ensures SweepHash(s, tenantId, now, fatesOf, done + {id}) ==
            if HashLands(s, tenantId, now, fatesOf, id)
            then var lease := Ended(s.hash[(tenantId, id)], EXPIRED, now);
                 SweepHash(s, tenantId, now, fatesOf, done)[(tenantId, id) := lease]
            else SweepHash(s, tenantId, now, fatesOf, done)
  {}

  ghost function ListedNext(list: seq<Lease>, lease: Lease, now: int, f: Fates): seq<Lease>
  {
    if IsDue(lease, now) && f.key.Done? && f.hash.Done? then list + [Ended(lease, EXPIRED, now)] else list
  }

  lemma SweptOne(s: LeaseState, tenantId: string, now: int, fatesOf: string -> Fates, done: set<string>, id: string,
                 list: seq<Lease>)
    requires WellKeyed(s) && (tenantId, id) in s.hash && id !in done
    requires Lists(list, Swept(s, tenantId, now, fatesOf, done))
    ensures Lists(ListedNext(list, s.hash[(tenantId, id)], now, fatesOf(id)),
            Swept(s, tenantId, now, fatesOf, done + {id}))
  {
    var listed, listed' := Swept(s, tenantId, now, fatesOf, done), Swept(s, tenantId, now, fatesOf, done + {id});
    var lease := Ended(s.hash[(tenantId, id)], EXPIRED, now);
    if Due(s, tenantId, now, id) && fatesOf(id).key.Done? && fatesOf(id).hash.Done? {
      assert listed' == listed[id := lease];
      ListOneMore(list, listed, lease);
    } else {
      assert listed' == listed;
    }
  }
}
