/** Runs of lease operations that do not overlap: how often a lease is handed back, with and without failing
    writes, and agreement with the single-map store when nothing fails. */
module LeaseRuns {
  import opened Base
  import opened Leases

  // ---------- runs ----------

  ghost function Run(ops: seq<Op>): (LeaseState, seq<map<string, Lease>>)
  {
    if ops == [] then (LeaseState(map[], map[]), [])
    else
      var (s, log) := Run(ops[..|ops| - 1]);
      var (s', handed) := Step(s, ops[|ops| - 1]);
      (s', log + [handed])
  }

  /** How often a lease was handed back, released or expired. */
  ghost function Count(log: seq<map<string, Lease>>, id: string): nat
  {
    if log == [] then 0
    else Count(log[..|log| - 1], id) + if id in log[|log| - 1] then 1 else 0
  }

  /** The lease that was recorded under each id. */
  ghost function LeaseOf(ops: seq<Op>): map<string, Lease>
  {
    if ops == [] then map[]
    else
      var m, op := LeaseOf(ops[..|ops| - 1]), ops[|ops| - 1];
      if op.Record? then m[op.lease.id := op.lease] else m
  }

  /** Leases are recorded as reserved, each under an id that was not used before. */
  ghost predicate Legal(ops: seq<Op>)
  {
    ops == [] ||
    var init, op := ops[..|ops| - 1], ops[|ops| - 1];
    Legal(init) && (op.Record? ==> op.lease.status == RESERVED && op.lease.id !in LeaseOf(init))
  }

  /** No write that was reported as failed has landed. */
  ghost predicate FailsCleanly(op: Op)
  {
    match op
    case Record(_, f) => !f.key.FailedAfter? && !f.hash.FailedAfter?
    case Release(_, _, _, f) => !f.key.FailedAfter? && !f.hash.FailedAfter?
    case Expire(_, _, _, fatesOf) => forall id :: !fatesOf(id).key.FailedAfter? && !fatesOf(id).hash.FailedAfter?
  }

  ghost predicate AllFailCleanly(ops: seq<Op>)
  {
    forall i :: 0 <= i < |ops| ==> FailsCleanly(ops[i])
  }

  // ---------- what every step keeps ----------

  ghost predicate SameLease(l: Lease, m: Lease)
  {
    m == l.(status := m.status, updatedAt := m.updatedAt)
  }

  /** Hash copies stand beside a key copy of the same lease. */
  ghost predicate Consistent(s: LeaseState)
  {
    && WellKeyed(s)
    && forall field :: field in s.hash ==> field.1 in s.keys && SameLease(s.keys[field.1], s.hash[field])
  }

  /** Both copies exist and neither is reserved: nobody will hand the lease back again. */
  ghost predicate Closed(s: LeaseState, id: string)
  {
    && id in s.keys && s.keys[id].status != RESERVED
    && (s.keys[id].tenantId, id) in s.hash && s.hash[(s.keys[id].tenantId, id)].status != RESERVED
  }

  ghost predicate Fresh(s: LeaseState, op: Op)
  {
    op.Record? ==> op.lease.id !in s.keys && op.lease.status == RESERVED
  }

  lemma WriteConsistent(s: LeaseState, l: Lease, f: Fates)
    requires Consistent(s) && (l.id in s.keys ==> SameLease(s.keys[l.id], l))
    ensures Consistent(Write(s, l, f).0)
  {}

  lemma StepConsistent(s: LeaseState, op: Op)
    requires Consistent(s) && Fresh(s, op)
    ensures Consistent(Step(s, op).0)
  {
    match op
    case Record(l, f) => WriteConsistent(s, l, f);
    case Release(id, now, readOk, f) =>
      if id in s.keys { WriteConsistent(s, Ended(s.keys[id], RELEASED, now), f); }
    case Expire(t, now, readOk, fatesOf) =>
  }

  /** Keys and hash fields stay, and stay copies of the lease they were. */
  lemma StepKeepsLeases(s: LeaseState, op: Op, id: string)
    requires Consistent(s) && Fresh(s, op) && id in s.keys
    ensures id in Step(s, op).0.keys && SameLease(s.keys[id], Step(s, op).0.keys[id])
    ensures forall t :: (t, id) in s.hash ==>
              (t, id) in Step(s, op).0.hash && SameLease(s.hash[(t, id)], Step(s, op).0.hash[(t, id)])
  {
    StepKeepsKey(s, op, id);
    forall t | (t, id) in s.hash
      ensures (t, id) in Step(s, op).0.hash && SameLease(s.hash[(t, id)], Step(s, op).0.hash[(t, id)])
    {
      StepKeepsField(s, op, (t, id));
    }
  }

  lemma StepKeepsKey(s: LeaseState, op: Op, id: string)
    requires Consistent(s) && Fresh(s, op) && id in s.keys
    ensures id in Step(s, op).0.keys && SameLease(s.keys[id], Step(s, op).0.keys[id])
  {
  }

  lemma StepKeepsField(s: LeaseState, op: Op, field: (string, string))
    requires Consistent(s) && Fresh(s, op) && field in s.hash
    ensures field in Step(s, op).0.hash && SameLease(s.hash[field], Step(s, op).0.hash[field])
  {
  }

  lemma ClosedStays(s: LeaseState, op: Op, id: string)
    requires Consistent(s) && Fresh(s, op) && Closed(s, id)
    ensures Closed(Step(s, op).0, id) && id !in Step(s, op).1
  {}

  lemma HandingBackCloses(s: LeaseState, op: Op, id: string)
    requires Consistent(s) && Fresh(s, op) && id in Step(s, op).1
    ensures !Closed(s, id) && Closed(Step(s, op).0, id)
  {}

  /** The operation ends the lease but does not hand it back: its second write landed, reported as failed. */
  ghost predicate Loses(s: LeaseState, op: Op, id: string)
  {
    match op
    case Record(_, _) => false
    case Release(id', now, readOk, f) =>
      id' == id && readOk && id in s.keys && s.keys[id].status == RESERVED && f == Fates(Done, FailedAfter)
    case Expire(t, now, readOk, fatesOf) => readOk && Due(s, t, now, id) && fatesOf(id) == Fates(Done, FailedAfter)
  }

  lemma LosingCloses(s: LeaseState, op: Op, id: string)
    requires Consistent(s) && Fresh(s, op) && Loses(s, op, id)
    ensures !Closed(s, id) && Closed(Step(s, op).0, id) && id !in Step(s, op).1
  {
    if op.Expire? {
      assert (op.tenantId, id).1 == id;
      assert id in FieldsOf(s.hash, op.tenantId);
    }
  }

  /** A hash copy stops being reserved only by being handed back or lost. */
  lemma OpenStaysReserved(s: LeaseState, op: Op, field: (string, string))
    requires Consistent(s) && Fresh(s, op) && field in Step(s, op).0.hash
    requires field in s.hash ==> s.hash[field].status == RESERVED
    requires field.1 !in Step(s, op).1 && !Loses(s, op, field.1)
    ensures Step(s, op).0.hash[field].status == RESERVED
  {
    if op.Expire? { OpenUnderSweep(s, op, field); }
  }

  lemma OpenUnderSweep(s: LeaseState, op: Op, field: (string, string))
    requires op.Expire? && field in s.hash && s.hash[field].status == RESERVED
    requires field.1 !in Step(s, op).1 && !Loses(s, op, field.1)
    ensures Step(s, op).0.hash[field].status == RESERVED
  {
    assert field.0 == op.tenantId ==> field == (op.tenantId, field.1) && field.1 in FieldsOf(s.hash, op.tenantId);
  }

  // ---------- what every run keeps ----------

  /** The last step of a run, and what it adds to the count of a lease. */
  lemma RunLast(ops: seq<Op>, id: string)
    requires ops != []
    ensures var (s, log) := Run(ops[..|ops| - 1]);
            var op := ops[|ops| - 1];
            && Run(ops) == (Step(s, op).0, log + [Step(s, op).1])
            && Count(Run(ops).1, id) == Count(log, id) + if id in Step(s, op).1 then 1 else 0
  {
    var (s, log) := Run(ops[..|ops| - 1]);
    var op := ops[|ops| - 1];
    assert (log + [Step(s, op).1])[..|log|] == log;
  }

  ghost predicate Copies(s: LeaseState, leases: map<string, Lease>)
  {
    forall id :: id in s.keys ==> id in leases && SameLease(leases[id], s.keys[id])
  }

  lemma StepCopies(s: LeaseState, op: Op, leases: map<string, Lease>)
    requires Consistent(s) && Fresh(s, op) && Copies(s, leases)
    ensures Copies(Step(s, op).0, if op.Record? then leases[op.lease.id := op.lease] else leases)
  {
    forall id | id in Step(s, op).0.keys && !(op.Record? && id == op.lease.id)
      ensures id in s.keys && SameLease(s.keys[id], Step(s, op).0.keys[id])
    {
      KeysComeFromRecords(s, op, id);
      StepKeepsLeases(s, op, id);
    }
  }

  lemma KeysComeFromRecords(s: LeaseState, op: Op, id: string)
    requires Consistent(s) && id in Step(s, op).0.keys
    requires op.Record? ==> op.lease.id != id
    ensures id in s.keys
  {}

  lemma {:induction false} RunInvariant(ops: seq<Op>)
    requires Legal(ops)
    ensures Consistent(Run(ops).0) && Copies(Run(ops).0, LeaseOf(ops))
    ensures ops != [] ==> Consistent(Run(ops[..|ops| - 1]).0) && Fresh(Run(ops[..|ops| - 1]).0, ops[|ops| - 1])
  {
    if ops == [] {
    } else {
      var init, op := ops[..|ops| - 1], ops[|ops| - 1];
      RunInvariant(init);
      StepConsistent(Run(init).0, op);
      StepCopies(Run(init).0, op, LeaseOf(init));
    }
  }

  lemma {:induction false} LeaseOfRecord(ops: seq<Op>, i: nat)
    requires Legal(ops) && i < |ops| && ops[i].Record?
    ensures ops[i].lease.id in LeaseOf(ops) && LeaseOf(ops)[ops[i].lease.id] == ops[i].lease
  {
    if i == |ops| - 1 {
    } else {
      assert ops[..|ops| - 1][i] == ops[i];
      LeaseOfRecord(ops[..|ops| - 1], i);
    }
  }

  lemma {:induction false} HandedIsClosed(ops: seq<Op>, id: string)
    requires Legal(ops)
    ensures Count(Run(ops).1, id) <= 1
    ensures Count(Run(ops).1, id) == 1 ==> Closed(Run(ops).0, id)
  {
    if ops == [] {
    } else {
      var init, op := ops[..|ops| - 1], ops[|ops| - 1];
      RunInvariant(ops);
      RunLast(ops, id);
      HandedIsClosed(init, id);
      var s := Run(init).0;
      if Closed(s, id) { ClosedStays(s, op, id); }
      if id in Step(s, op).1 { HandingBackCloses(s, op, id); }
    }
  }

  /** In every run, whatever fails and whether or not a failed write landed, a lease is handed back at most once. */
  lemma AtMostOnce(ops: seq<Op>, id: string)
    requires Legal(ops)
    ensures Count(Run(ops).1, id) <= 1
  {
    HandedIsClosed(ops, id);
  }

  /** What is handed back is a lease recorded before, otherwise unchanged, that was not handed back yet. */
  lemma HandedWasRecorded(ops: seq<Op>, op: Op, id: string)
    requires Legal(ops) && Legal(ops + [op]) && id in Step(Run(ops).0, op).1
    ensures var l := Step(Run(ops).0, op).1[id];
            l.id == id && Count(Run(ops).1, id) == 0 && id in LeaseOf(ops) && SameLease(LeaseOf(ops)[id], l)
  {
    assert (ops + [op])[..|ops|] == ops;
    RunInvariant(ops + [op]);
    RunInvariant(ops);
    HandedIsCopyOfKey(Run(ops).0, op, id);
    HandingBackCloses(Run(ops).0, op, id);
    HandedIsClosed(ops, id);
  }

  lemma HandedIsCopyOfKey(s: LeaseState, op: Op, id: string)
    requires Consistent(s) && id in Step(s, op).1
    ensures id in s.keys && Step(s, op).1[id].id == id && SameLease(s.keys[id], Step(s, op).1[id])
  {
    if op.Expire? { assert (op.tenantId, id).1 == id; }
  }

  /** Some operation of the run lost the lease. */
  ghost predicate Lost(ops: seq<Op>, id: string)
  {
    ops != [] && (Lost(ops[..|ops| - 1], id) || Loses(Run(ops[..|ops| - 1]).0, ops[|ops| - 1], id))
  }

  lemma {:induction false} LostIsClosed(ops: seq<Op>, id: string)
    requires Legal(ops) && Lost(ops, id)
    ensures Count(Run(ops).1, id) == 0 && Closed(Run(ops).0, id)
  {
    var init, op := ops[..|ops| - 1], ops[|ops| - 1];
    RunInvariant(ops);
    RunLast(ops, id);
    if Lost(init, id) {
      LostIsClosed(init, id);
      ClosedStays(Run(init).0, op, id);
    } else {
      HandedIsClosed(init, id);
      LosingCloses(Run(init).0, op, id);
    }
  }

  /** Losing takes a write that landed although it was reported as failed. */
  lemma {:induction false} CleanFailuresLoseNothing(ops: seq<Op>, id: string)
    requires AllFailCleanly(ops)
    ensures !Lost(ops, id)
  {
    if ops == [] {
    } else {
      assert FailsCleanly(ops[|ops| - 1]);
      CleanFailuresLoseNothing(ops[..|ops| - 1], id);
    }
  }

  lemma {:induction false} OpenIsReserved(ops: seq<Op>, field: (string, string))
    requires Legal(ops) && !Lost(ops, field.1)
    requires field in Run(ops).0.hash && Count(Run(ops).1, field.1) == 0
    ensures Run(ops).0.hash[field].status == RESERVED
  {
    if ops == [] {
    } else {
      var init, op := ops[..|ops| - 1], ops[|ops| - 1];
      RunInvariant(ops);
      RunLast(ops, field.1);
      var s := Run(init).0;
      if field in s.hash { OpenIsReserved(init, field); }
      OpenStaysReserved(s, op, field);
    }
  }

  /** A sweep of a tenant in which no write fails. */
  ghost predicate CleanSweep(op: Op, tenantId: string, now: int)
  {
    op.Expire? && op.tenantId == tenantId && op.now == now && op.readOk
    && forall id :: op.fatesOf(id) == Fates(Done, Done)
  }

  /** Whatever failed before, after a failure-free sweep past its expiry a recorded lease has been handed back
      exactly once if and only if its hash copy was ever written and no operation lost it. */
  lemma ExactlyOnceIff(ops: seq<Op>, i: nat, sweep: Op)
    requires Legal(ops) && i < |ops| && ops[i].Record?
    requires sweep.Expire? && CleanSweep(sweep, ops[i].lease.tenantId, sweep.now) && ops[i].lease.expiresAt <= sweep.now
    ensures Count(Run(ops + [sweep]).1, ops[i].lease.id) == 1 <==>
            (ops[i].lease.tenantId, ops[i].lease.id) in Run(ops).0.hash && !Lost(ops, ops[i].lease.id)
  {
    var l := ops[i].lease;
    var field := (l.tenantId, l.id);
    var (s, log) := Run(ops);
    assert (ops + [sweep])[..|ops|] == ops;
    RunLast(ops + [sweep], l.id);
    RunInvariant(ops);
    LeaseOfRecord(ops, i);
    HandedIsClosed(ops, l.id);
    if Lost(ops, l.id) {
      LostIsClosed(ops, l.id);
      ClosedStays(s, sweep, l.id);
    } else if field in s.hash {
      assert SameLease(l, s.hash[field]);
      if Count(log, l.id) == 0 {
        OpenIsReserved(ops, field);
        assert Due(s, l.tenantId, sweep.now, l.id);
        assert l.id in FieldsOf(s.hash, l.tenantId);
      } else {
        ClosedStays(s, sweep, l.id);
      }
    }
  }

  lemma {:induction false} FullyRecordedIsHashed(ops: seq<Op>, i: nat)
    requires Legal(ops) && i < |ops| && ops[i].Record? && ops[i].fates == Fates(Done, Done)
    ensures (ops[i].lease.tenantId, ops[i].lease.id) in Run(ops).0.hash
  {
    var init, op := ops[..|ops| - 1], ops[|ops| - 1];
    RunInvariant(ops);
    if i == |init| {
    } else {
      assert init[i] == ops[i];
      FullyRecordedIsHashed(init, i);
      StepKeepsLeases(Run(init).0, op, ops[i].lease.id);
    }
  }

  /** Hence a fully recorded lease is handed back exactly once unless it was lost, which takes a write that
      landed although it was reported as failed. */
  lemma ExactlyOnceAfterSweep(ops: seq<Op>, i: nat, sweep: Op)
    requires Legal(ops)
    requires i < |ops| && ops[i].Record? && ops[i].fates == Fates(Done, Done)
    requires sweep.Expire? && CleanSweep(sweep, ops[i].lease.tenantId, sweep.now) && ops[i].lease.expiresAt <= sweep.now
    ensures Count(Run(ops + [sweep]).1, ops[i].lease.id) == 1 <==> !Lost(ops, ops[i].lease.id)
    ensures AllFailCleanly(ops) ==> !Lost(ops, ops[i].lease.id)
  {
    FullyRecordedIsHashed(ops, i);
    ExactlyOnceIff(ops, i, sweep);
    if AllFailCleanly(ops) { CleanFailuresLoseNothing(ops, ops[i].lease.id); }
  }

  /** A lease is recorded, and released with a second write that lands but is reported as failed. */
  function LosingStart(l: Lease, now: int): seq<Op>
  {
    [Record(l, Fates(Done, Done)), Release(l.id, now, true, Fates(Done, FailedAfter))]
  }

  lemma LosingRelease(s: LeaseState, l: Lease, now: int)
    requires l.id in s.keys && s.keys[l.id] == l && l.status == RESERVED
    ensures Loses(s, Release(l.id, now, true, Fates(Done, FailedAfter)), l.id)
  {
  }

  lemma RecordedAlone(l: Lease)
    ensures Run([Record(l, Fates(Done, Done))]).0.keys == map[l.id := l]
  {
    assert [Record(l, Fates(Done, Done))][..0] == [];
  }

  lemma LosingStartLoses(l: Lease, now: int)
    requires l.status == RESERVED
    ensures Lost(LosingStart(l, now), l.id)
  {
    var ops := LosingStart(l, now);
    assert ops[..|ops| - 1] == [Record(l, Fates(Done, Done))];
    RecordedAlone(l);
    LosingRelease(Run(ops[..|ops| - 1]).0, l, now);
  }

  /** What is lost stays lost. */
  lemma {:induction false} LostStays(ops: seq<Op>, more: seq<Op>, id: string)
    requires Lost(ops, id)
    ensures Lost(ops + more, id)
  {
    if more == [] {
      assert ops + more == ops;
    } else {
      LostStays(ops, more[..|more| - 1], id);
      assert (ops + more)[..|ops + more| - 1] == ops + more[..|more| - 1];
    }
  }

  lemma {:induction false} LegalPrefix(ops: seq<Op>, k: nat)
    requires Legal(ops) && k <= |ops|
    ensures Legal(ops[..k])
  {
    if k == |ops| {
      assert ops[..k] == ops;
    } else {
      assert ops[..|ops| - 1][..k] == ops[..k];
      LegalPrefix(ops[..|ops| - 1], k);
    }
  }

  lemma RecordsReserved(op: Op)
    requires Legal([op]) && op.Record?
    ensures op.lease.status == RESERVED
  {
  }

  /** The smallest loss: a release whose second write landed but was reported as failed closes the lease
      without handing it back, and no later operation ever hands it back. */
  lemma LandedFailureLosesLease(l: Lease, now: int, more: seq<Op>)
    requires Legal(LosingStart(l, now) + more)
    ensures Count(Run(LosingStart(l, now) + more).1, l.id) == 0 && Closed(Run(LosingStart(l, now) + more).0, l.id)
  {
    var ops := LosingStart(l, now) + more;
    LegalPrefix(ops, 1);
    assert ops[..1] == [Record(l, Fates(Done, Done))];
    RecordsReserved(Record(l, Fates(Done, Done)));
    LosingStartLoses(l, now);
    LostStays(LosingStart(l, now), more, l.id);
    LostIsClosed(ops, l.id);
  }

  // ---------- which leases an operation ends, and how ----------

  /** The tenant's hash holds the lease as reserved and its time is over. */
  ghost predicate TimeIsOver(s: LeaseState, tenantId: string, now: int, id: string)
  {
    && (tenantId, id) in s.hash && s.hash[(tenantId, id)].status == "reserved"
    && s.hash[(tenantId, id)].expiresAt <= now
  }

  /** Both copies of a lease are as they were. */
  ghost predicate Untouched(s: LeaseState, t: LeaseState, id: string)
  {
    && (id in s.keys <==> id in t.keys) && (id in s.keys ==> s.keys[id] == t.keys[id])
    && (forall u :: (u, id) in s.hash <==> (u, id) in t.hash)
    && (forall u :: (u, id) in s.hash ==> s.hash[(u, id)] == t.hash[(u, id)])
  }

  /** A sweep leaves a lease alone unless its time is over in the hash of that tenant. */
  lemma SweepLeavesAlone(s: LeaseState, sweep: Op, id: string)
    requires sweep.Expire? && !TimeIsOver(s, sweep.tenantId, sweep.now, id)
    ensures Untouched(s, Step(s, sweep).0, id) && id !in Step(s, sweep).1
  {
  }

  /** A sweep that can read hands back exactly the leases whose time is over and whose writes are both done, as
      expired at that moment. */
  lemma SweepMeans(s: LeaseState, sweep: Op, id: string)
    requires sweep.Expire?
    ensures id in Step(s, sweep).1 <==>
            sweep.readOk && TimeIsOver(s, sweep.tenantId, sweep.now, id) && sweep.fatesOf(id) == Fates(Done, Done)
    ensures id in Step(s, sweep).1 ==>
              Step(s, sweep).1[id] == s.hash[(sweep.tenantId, id)].(status := "expired", updatedAt := sweep.now)
  {
    assert (sweep.tenantId, id).1 == id;
  }

  /** A release that can read hands back exactly its own lease, if the key holds it as reserved and both writes are
      done, as released at that moment; every other lease is left alone. */
  lemma ReleaseMeans(s: LeaseState, release: Op, id: string)
    requires release.Release? && WellKeyed(s)
    ensures id in Step(s, release).1 <==>
            && release.readOk && id == release.id && id in s.keys && s.keys[id].status == "reserved"
            && release.fates == Fates(Done, Done)
    ensures id in Step(s, release).1 ==>
              Step(s, release).1[id] == s.keys[id].(status := "released", updatedAt := release.now)
    ensures id != release.id || !(id in s.keys && s.keys[id].status == "reserved") ==>
              Untouched(s, Step(s, release).0, id)
  {
  }

  lemma {:induction false} RecordedAt(ops: seq<Op>, id: string) returns (i: nat)
    requires id in LeaseOf(ops)
    ensures i < |ops| && ops[i].Record? && ops[i].lease == LeaseOf(ops)[id] && ops[i].lease.id == id
  {
    var op := ops[|ops| - 1];
    if op.Record? && op.lease.id == id { i := |ops| - 1; } else { i := RecordedAt(ops[..|ops| - 1], id); }
  }

  lemma {:induction false} LogAt(ops: seq<Op>, i: nat)
    requires i < |ops|
    ensures |Run(ops).1| == |ops| && Run(ops).1[i] == Step(Run(ops[..i]).0, ops[i]).1
  {
    var init := ops[..|ops| - 1];
    if i == |ops| - 1 {
      if init != [] { LogAt(init, 0); }
    } else {
      LogAt(init, i);
      assert init[..i] == ops[..i];
    }
  }

  /** How one operation hands a lease back. */
  lemma HandedAs(s: LeaseState, op: Op, id: string)
    requires Consistent(s) && id in Step(s, op).1
    ensures var back := Step(s, op).1[id];
            match op
            case Record(_, _) => false
            case Release(released, now, _, _) => released == id && back.status == "released" && back.updatedAt == now
            case Expire(t, now, _, _) =>
              back.tenantId == t && back.expiresAt <= now && back.status == "expired" && back.updatedAt == now
  {
    if op.Expire? { SweepMeans(s, op, id); }
    if op.Release? { ReleaseMeans(s, op, id); }
  }

  /** In every legal run a lease that is handed back was recorded before; a sweep hands it back for the tenant it
      was recorded for and no earlier than its expiry, as expired at that moment, a release as released, and
      nothing else about it has changed. */
  lemma HandedBackAs(ops: seq<Op>, i: nat, id: string) returns (k: nat)
    requires Legal(ops) && i < |ops| && i < |Run(ops).1| && id in Run(ops).1[i]
    ensures k < i && ops[k].Record? && ops[k].lease.id == id
    ensures var l, back := ops[k].lease, Run(ops).1[i][id];
            match ops[i]
            case Record(_, _) => false
            case Release(released, now, _, _) =>
              released == id && back == l.(status := "released", updatedAt := now)
            case Expire(t, now, _, _) =>
              l.tenantId == t && l.expiresAt <= now && back == l.(status := "expired", updatedAt := now)
  {
    var init := ops[..i];
    LogAt(ops, i);
    LegalPrefix(ops, i);
    LegalPrefix(ops, i + 1);
    assert ops[..i + 1] == init + [ops[i]];
    HandedWasRecorded(init, ops[i], id);
    RunInvariant(init);
    HandedAs(Run(init).0, ops[i], id);
    k := RecordedAt(init, id);
  }

  // ---------- agreement with the single-map store ----------

  /** One operation of the in-memory repository, which keeps each lease once. */
  ghost function MemStep(m: map<string, Lease>, op: Op): (map<string, Lease>, map<string, Lease>)
  {
    match op
    case Record(l, _) => (m[l.id := l], map[])
    case Release(id, now, _, _) =>
      if id in m && m[id].status == RESERVED
      then (m[id := Ended(m[id], RELEASED, now)], map[id := Ended(m[id], RELEASED, now)])
      else (m, map[])
    case Expire(t, now, _, _) =>
      (map id | id in m :: if m[id].tenantId == t && IsDue(m[id], now) then Ended(m[id], EXPIRED, now) else m[id],
       map id | id in m && m[id].tenantId == t && IsDue(m[id], now) :: Ended(m[id], EXPIRED, now))
  }

  ghost function MemRun(ops: seq<Op>): (map<string, Lease>, seq<map<string, Lease>>)
  {
    if ops == [] then (map[], [])
    else
      var (m, log) := MemRun(ops[..|ops| - 1]);
      var (m', handed) := MemStep(m, ops[|ops| - 1]);
      (m', log + [handed])
  }

  ghost predicate Faultless(op: Op)
  {
    match op
    case Record(_, f) => f == Fates(Done, Done)
    case Release(_, _, readOk, f) => readOk && f == Fates(Done, Done)
    case Expire(_, _, readOk, fatesOf) => readOk && forall id :: fatesOf(id) == Fates(Done, Done)
  }

  /** The hash holds exactly the key copies, filed by tenant. */
  ghost predicate Mirrored(s: LeaseState)
  {
    && (forall id :: id in s.keys ==> (s.keys[id].tenantId, id) in s.hash)
    && (forall field :: field in s.hash ==> field.1 in s.keys && s.hash[field] == s.keys[field.1])
  }

  lemma MirroredWrite(s: LeaseState, l: Lease)
    requires Mirrored(s) && (l.id in s.keys ==> s.keys[l.id].tenantId == l.tenantId)
    requires WellKeyed(s)
    ensures Mirrored(Write(s, l, Fates(Done, Done)).0) && Write(s, l, Fates(Done, Done)).0.keys == s.keys[l.id := l]
  {}

  lemma MirroredDue(s: LeaseState, tenantId: string, now: int, id: string)
    requires Consistent(s) && Mirrored(s)
    ensures Due(s, tenantId, now, id) <==> id in s.keys && s.keys[id].tenantId == tenantId && IsDue(s.keys[id], now)
    ensures Due(s, tenantId, now, id) ==> id in FieldsOf(s.hash, tenantId) && s.hash[(tenantId, id)] == s.keys[id]
  {
    if Due(s, tenantId, now, id) { assert (tenantId, id).1 == id; }
  }

  lemma MirroredSweep(s: LeaseState, sweep: Op)
    requires Consistent(s) && Mirrored(s) && sweep.Expire? && Faultless(sweep)
    ensures SweepKeys(s, sweep.tenantId, sweep.now, sweep.fatesOf, FieldsOf(s.hash, sweep.tenantId))
            == MemStep(s.keys, sweep).0
  {
    forall id { MirroredDue(s, sweep.tenantId, sweep.now, id); }
  }

  lemma MirroredSwept(s: LeaseState, sweep: Op)
    requires Consistent(s) && Mirrored(s) && sweep.Expire? && Faultless(sweep)
    ensures Swept(s, sweep.tenantId, sweep.now, sweep.fatesOf, FieldsOf(s.hash, sweep.tenantId))
            == MemStep(s.keys, sweep).1
  {
    forall id { MirroredDue(s, sweep.tenantId, sweep.now, id); }
  }

  lemma MirroredAfterSweep(s: LeaseState, sweep: Op)
    requires Consistent(s) && Mirrored(s) && sweep.Expire? && Faultless(sweep)
    ensures Mirrored(Step(s, sweep).0)
  {
    forall id { MirroredDue(s, sweep.tenantId, sweep.now, id); }
  }

  lemma MirroredStep(s: LeaseState, op: Op)
    requires Consistent(s) && Mirrored(s) && Fresh(s, op) && Faultless(op)
    ensures Mirrored(Step(s, op).0)
    ensures (Step(s, op).0.keys, Step(s, op).1) == MemStep(s.keys, op)
  {
    match op
    case Record(l, f) => MirroredWrite(s, l);
    case Release(id, now, readOk, f) => if id in s.keys { MirroredWrite(s, Ended(s.keys[id], RELEASED, now)); }
    case Expire(t, now, readOk, fatesOf) =>
      MirroredSweep(s, op);
      MirroredSwept(s, op);
      MirroredAfterSweep(s, op);
  }

  /** While nothing fails, the two-copy store refines the single map: same leases, same leases handed back. */
  lemma {:induction false} FaultlessRunsAgree(ops: seq<Op>)
    requires Legal(ops) && forall i :: 0 <= i < |ops| ==> Faultless(ops[i])
    ensures (Run(ops).0.keys, Run(ops).1) == MemRun(ops) && Mirrored(Run(ops).0)
  {
    if ops == [] {
    } else {
      var init, op := ops[..|ops| - 1], ops[|ops| - 1];
      RunInvariant(ops);
      FaultlessRunsAgree(init);
      MirroredStep(Run(init).0, op);
    }
  }
}
