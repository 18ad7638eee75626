/** Leases and counters together: a reservation adds its amount to a counter before its lease is recorded, and
    every lease handed back takes its amount off again. Each call to the server can fail on its own. */
module BudgetBooks {
  import opened Base
  import opened Leases
  import opened LeaseRuns
  import opened Counters

  // ---------- sums of amounts ----------

  function AmountOf(l: Lease, key: string): int { if l.counterKey == key then l.amount else 0 }

  ghost function Pick(m: map<string, Lease>): (k: string)
    requires m != map[]
    ensures k in m
  {
    var k :| k in m;
    k
  }

  /** Amounts that a set of leases holds of one counter. */
  ghost function Amounts(m: map<string, Lease>, key: string): int
    decreases |m|
  {
    if m == map[] then 0
    else
      OneLess(m, Pick(m));
      AmountOf(m[Pick(m)], key) + Amounts(m - {Pick(m)}, key)
  }

  lemma OneLess(m: map<string, Lease>, k: string)
    requires k in m
    ensures |m - {k}| == |m| - 1 && (m - {k}).Keys == m.Keys - {k}
  {
    assert (m - {k}).Keys == m.Keys - {k};
    OneFewer(m.Keys, k);
  }

  lemma {:induction false} AmountsRemove(m: map<string, Lease>, key: string, id: string)
    requires id in m
    ensures Amounts(m, key) == AmountOf(m[id], key) + Amounts(m - {id}, key)
    decreases |m|
  {
    var k := Pick(m);
    if id == k {
    } else {
      OneLess(m, k);
      OneLess(m, id);
      AmountsRemove(m - {k}, key, id);
      AmountsRemove(m - {id}, key, k);
      assert (m - {k}) - {id} == (m - {id}) - {k};
    }
  }

  lemma AmountsAdd(m: map<string, Lease>, key: string, l: Lease)
    requires l.id !in m
    ensures Amounts(m[l.id := l], key) == Amounts(m, key) + AmountOf(l, key)
  {
    AmountsRemove(m[l.id := l], key, l.id);
    assert m[l.id := l] - {l.id} == m;
  }

  ghost predicate NonNegative(m: map<string, Lease>)
  {
    forall id :: id in m ==> m[id].amount >= 0
  }

  /** A sum of amounts is not negative, and zero exactly when every lease of the counter holds nothing. */
  lemma {:induction false} AmountsNonNegative(m: map<string, Lease>, key: string)
    requires NonNegative(m)
    ensures Amounts(m, key) >= 0
    ensures Amounts(m, key) == 0 <==> forall id :: id in m ==> AmountOf(m[id], key) == 0
    decreases |m|
  {
    if m == map[] {
    } else {
      var k := Pick(m);
      OneLess(m, k);
      AmountsNonNegative(m - {k}, key);
      assert forall id :: id in m ==> id == k || (id in m - {k} && m[id] == (m - {k})[id]);
    }
  }

  /** The leases of one counter. */
  ghost function Of(m: map<string, Lease>, key: string): map<string, Lease>
  {
    map id | id in m && m[id].counterKey == key :: m[id]
  }

  lemma {:induction false} AmountsOf(m: map<string, Lease>, key: string)
    ensures Amounts(m, key) == Amounts(Of(m, key), key)
    decreases |m|
  {
    if m == map[] {
    } else {
      var k := Pick(m);
      OneLess(m, k);
      AmountsOf(m - {k}, key);
      if m[k].counterKey == key {
        AmountsRemove(Of(m, key), key, k);
        assert Of(m, key) - {k} == Of(m - {k}, key);
      } else {
        assert Of(m, key) == Of(m - {k}, key);
      }
    }
  }

  // ---------- events ----------

  /** A take adds the amount of a reservation, a refund takes a refused one off again, and a lease operation is
      followed by one give-back for each lease it returned. */
  datatype Event =
    | Take(lease: Lease, fate: Fate)
    | Refund(id: string, fate: Fate)
    | Store(op: Op, reply: seq<Lease>, backs: string -> Fate)

  ghost function OpsOf(events: seq<Event>): seq<Op>
  {
    if events == [] then []
    else
      var ops, e := OpsOf(events[..|events| - 1]), events[|events| - 1];
      if e.Store? then ops + [e.op] else ops
  }

  /** The reservations taken and not refunded. */
  ghost function Booked(events: seq<Event>): map<string, Lease>
  {
    if events == [] then map[]
    else
      var m, e := Booked(events[..|events| - 1]), events[|events| - 1];
      match e
      case Take(l, _) => m[l.id := l]
      case Refund(id, _) => m - {id}
      case Store(_, _, _) => m
  }

  ghost predicate LegalNext(init: seq<Event>, e: Event)
  {
    var ops, booked := OpsOf(init), Booked(init);
    match e
    case Take(l, _) => l.amount >= 0 && l.id !in booked && l.id !in LeaseOf(ops)
    case Refund(id, _) => id in booked && id !in LeaseOf(ops)
    case Store(op, reply, _) =>
      && Legal(ops + [op])
      && (op.Record? ==> op.lease.id in booked && booked[op.lease.id] == op.lease)
      && Lists(reply, Step(Run(ops).0, op).1)
  }

  /** Reservations have ids of their own and amounts that are not negative; a lease is recorded for a booked
      reservation, as it was taken; a refund is for one that was not recorded; replies are the store's. */
  ghost predicate LegalEvents(events: seq<Event>)
  {
    events == [] || (LegalEvents(events[..|events| - 1]) && LegalNext(events[..|events| - 1], events[|events| - 1]))
  }

  /** One counter: its value, the amounts of give-backs that did not land, and of takes that did not. */
  datatype Line = Line(value: int, leaked: int, dropped: int)

  function Less(line: Line, amount: int, fate: Fate): Line
  {
    line.(value := AdjustCall(line.value, -amount, fate).0, leaked := line.leaked + if fate.Lands() then 0 else amount)
  }

  /** The give-backs after a reply, one adjust for each lease. */
  ghost function TakeOff(line: Line, list: seq<Lease>, backs: string -> Fate, key: string): Line
  {
    if list == [] then line
    else
      var l := list[|list| - 1];
      Less(TakeOff(line, list[..|list| - 1], backs, key), AmountOf(l, key), backs(l.id))
  }

  ghost function NextLine(line: Line, booked: map<string, Lease>, e: Event, key: string): Line
    requires e.Refund? ==> e.id in booked
  {
    match e
    case Take(l, fate) =>
      line.(value := AdjustCall(line.value, AmountOf(l, key), fate).0,
            dropped := line.dropped + if fate.Lands() then 0 else AmountOf(l, key))
    case Refund(id, fate) => Less(line, AmountOf(booked[id], key), fate)
    case Store(_, reply, backs) => TakeOff(line, reply, backs, key)
  }

  ghost function LineAfter(events: seq<Event>, key: string): Line
    requires LegalEvents(events)
  {
    if events == [] then Line(0, 0, 0)
    else
      var init := events[..|events| - 1];
      NextLine(LineAfter(init, key), Booked(init), events[|events| - 1], key)
  }

  /** The reservations that are out: booked, and their leases not handed back. */
  ghost function Out(events: seq<Event>): map<string, Lease> { OutOf(Booked(events), Run(OpsOf(events)).1) }

  ghost function OutOf(leases: map<string, Lease>, log: seq<map<string, Lease>>): map<string, Lease>
  {
    map id | id in leases && Count(log, id) == 0 :: leases[id]
  }

  // ---------- how the reservations that are out change ----------

  lemma CountAppend(log: seq<map<string, Lease>>, handed: map<string, Lease>, id: string)
    ensures Count(log + [handed], id) == Count(log, id) + if id in handed then 1 else 0
  {
    assert (log + [handed])[..|log|] == log;
  }

  lemma OutOfHanded(leases: map<string, Lease>, log: seq<map<string, Lease>>, handed: map<string, Lease>)
    ensures OutOf(leases, log + [handed]) == OutOf(leases, log) - handed.Keys
  {
    forall id { CountAppend(log, handed, id); }
  }

  /** Recorded leases are booked as they were taken, and amounts are not negative. */
  lemma {:induction false} EventInvariant(events: seq<Event>)
    requires LegalEvents(events)
    ensures Legal(OpsOf(events)) && NonNegative(Booked(events))
    ensures forall id :: id in Booked(events) ==> Booked(events)[id].id == id
    ensures forall id :: id in LeaseOf(OpsOf(events)) ==>
              id in Booked(events) && Booked(events)[id] == LeaseOf(OpsOf(events))[id]
  {
    if events == [] {
    } else {
      var init, e := events[..|events| - 1], events[|events| - 1];
      EventInvariant(init);
      if e.Store? { assert (OpsOf(init) + [e.op])[..|OpsOf(init)|] == OpsOf(init); }
    }
  }

  /** Only recorded leases are handed back. */
  lemma UnrecordedIsOut(ops: seq<Op>, id: string)
    requires Legal(ops) && id !in LeaseOf(ops)
    ensures Count(Run(ops).1, id) == 0
  {
    RunInvariant(ops);
    HandedIsClosed(ops, id);
  }

  lemma OutAfterStore(init: seq<Event>, e: Event)
    requires LegalEvents(init) && LegalNext(init, e) && e.Store? && LegalEvents(init + [e])
    ensures Out(init + [e]) == Out(init) - Step(Run(OpsOf(init)).0, e.op).1.Keys
  {
    var ops := OpsOf(init);
    assert (init + [e])[..|init|] == init;
    assert (ops + [e.op])[..|ops|] == ops;
    RunLast(ops + [e.op], "");
    OutOfHanded(Booked(init), Run(ops).1, Step(Run(ops).0, e.op).1);
  }

  lemma OutAfterTake(init: seq<Event>, e: Event)
    requires LegalEvents(init) && LegalNext(init, e) && e.Take? && LegalEvents(init + [e])
    ensures Out(init + [e]) == Out(init)[e.lease.id := e.lease] && e.lease.id !in Out(init)
  {
    assert (init + [e])[..|init|] == init;
    EventInvariant(init);
    UnrecordedIsOut(OpsOf(init), e.lease.id);
  }

  lemma OutAfterRefund(init: seq<Event>, e: Event)
    requires LegalEvents(init) && LegalNext(init, e) && e.Refund? && LegalEvents(init + [e])
    ensures Out(init + [e]) == Out(init) - {e.id} && e.id in Out(init)
  {
    assert (init + [e])[..|init|] == init;
    EventInvariant(init);
    UnrecordedIsOut(OpsOf(init), e.id);
  }

  // ---------- the books ----------

  /** The line against the reservations that are out. */
  ghost predicate Agrees(line: Line, m: map<string, Lease>, key: string)
  {
    && line.value >= 0 && line.dropped >= 0
    && line.value + line.dropped >= Amounts(m, key) + line.leaked
    && (line.dropped == 0 ==> line.value == Amounts(m, key) + line.leaked)
    && line.leaked >= 0
  }

  /** Handed-back leases hold the same amounts of the same counters as when they were taken. */
  ghost predicate TakenFrom(list: seq<Lease>, m: map<string, Lease>)
  {
    UniqueBy(list, LeaseId) && forall l :: l in list ==> l.id in m && SameLease(m[l.id], l)
  }

  ghost function Ids(list: seq<Lease>): set<string> { set l | l in list :: l.id }

  lemma LessAgrees(line: Line, m: map<string, Lease>, l: Lease, fate: Fate, key: string)
    requires NonNegative(m) && l.id in m && SameLease(m[l.id], l) && Agrees(line, m, key)
    ensures Agrees(Less(line, AmountOf(l, key), fate), m - {l.id}, key)
  {
    AmountsRemove(m, key, l.id);
    AmountsNonNegative(m - {l.id}, key);
  }

  lemma {:induction false} TakeOffAgrees(line: Line, m: map<string, Lease>, list: seq<Lease>, backs: string -> Fate,
                                         key: string)
    requires NonNegative(m) && TakenFrom(list, m) && Agrees(line, m, key)
    ensures Agrees(TakeOff(line, list, backs, key), m - Ids(list), key)
  {
    if list == [] {
      assert m - Ids(list) == m;
    } else {
      var init, l := list[..|list| - 1], list[|list| - 1];
      LastTaken(m, list);
      TakeOffAgrees(line, m, init, backs, key);
      LessAgrees(TakeOff(line, init, backs, key), m - Ids(init), l, backs(l.id), key);
    }
  }

  lemma LastTaken(m: map<string, Lease>, list: seq<Lease>)
    requires NonNegative(m) && TakenFrom(list, m) && list != []
    ensures var init, l := list[..|list| - 1], list[|list| - 1];
            && TakenFrom(init, m) && l.id in m - Ids(init) && SameLease(m[l.id], l)
            && (m - Ids(init)) - {l.id} == m - Ids(list)
  {
    var init, l := list[..|list| - 1], list[|list| - 1];
    assert list == init + [l];
    UniqueAppend(init, l, LeaseId);
    assert l in list;
    assert Ids(list) == Ids(init) + {l.id};
  }

  lemma HandedAreCopies(init: seq<Event>, e: Event)
    requires LegalEvents(init) && e.Store? && LegalNext(init, e)
    ensures TakenFrom(e.reply, Out(init)) && Ids(e.reply) == Step(Run(OpsOf(init)).0, e.op).1.Keys
  {
    var handed := Step(Run(OpsOf(init)).0, e.op).1;
    forall id | id in handed ensures handed[id].id == id && id in Out(init) && SameLease(Out(init)[id], handed[id]) {
      HandedIsCopy(init, e, id);
    }
    forall id | id in handed ensures id in Ids(e.reply) { assert handed[id] in e.reply; }
  }

  lemma HandedIsCopy(init: seq<Event>, e: Event, id: string)
    requires LegalEvents(init) && e.Store? && LegalNext(init, e) && id in Step(Run(OpsOf(init)).0, e.op).1
    ensures var l := Step(Run(OpsOf(init)).0, e.op).1[id];
            l.id == id && id in Out(init) && SameLease(Out(init)[id], l)
  {
    EventInvariant(init);
    HandedWasRecorded(OpsOf(init), e.op, id);
  }

  lemma TakeAgrees(line: Line, m: map<string, Lease>, l: Lease, fate: Fate, key: string)
    requires Agrees(line, m, key) && NonNegative(m) && l.id !in m && l.amount >= 0
    ensures Agrees(NextLine(line, map[], Take(l, fate), key), m[l.id := l], key)
  {
    AmountsAdd(m, key, l);
    AmountsNonNegative(m, key);
  }

  lemma NextAgrees(init: seq<Event>, e: Event, line: Line, key: string)
    requires LegalEvents(init) && LegalNext(init, e) && LegalEvents(init + [e]) && Agrees(line, Out(init), key)
    ensures Agrees(NextLine(line, Booked(init), e, key), Out(init + [e]), key)
  {
    EventInvariant(init);
    match e
    case Take(l, fate) =>
      OutAfterTake(init, e);
      TakeAgrees(line, Out(init), l, fate, key);
    case Refund(id, fate) =>
      OutAfterRefund(init, e);
      LessAgrees(line, Out(init), Out(init)[id], fate, key);
    case Store(op, reply, backs) =>
      OutAfterStore(init, e);
      HandedAreCopies(init, e);
      TakeOffAgrees(line, Out(init), reply, backs, key);
  }

  /** The books: in every legal run of takes, refunds and lease operations, in any order and whatever fails, a
      counter holds the amounts of the reservations that are out and those whose give-back did not land, but for
      the takes that did not land; when every take landed it holds exactly that. */
  lemma {:induction false} CounterIsOutstandingLeases(events: seq<Event>, key: string)
    requires LegalEvents(events)
    ensures Agrees(LineAfter(events, key), Out(events), key)
  {
    if events == [] {
      assert Out(events) == map[];
    } else {
      var init, e := events[..|events| - 1], events[|events| - 1];
      assert events == init + [e];
      CounterIsOutstandingLeases(init, key);
      NextAgrees(init, e, LineAfter(init, key), key);
    }
  }

  // ---------- what a sweep leaves ----------

  /** Booked reservations that no sweep hands back: their lease has no hash copy, or was lost. */
  ghost function Stuck(events: seq<Event>): map<string, Lease>
  {
    var ops, booked := OpsOf(events), Booked(events);
    map id | id in booked && ((booked[id].tenantId, id) !in Run(ops).0.hash || Lost(ops, id)) :: booked[id]
  }

  ghost predicate DrainingSweep(events: seq<Event>, e: Event, key: string)
  {
    && e.Store? && e.op.Expire? && CleanSweep(e.op, e.op.tenantId, e.op.now)
    && (forall id :: e.backs(id).Lands())
    && forall id :: id in Booked(events) && Booked(events)[id].counterKey == key ==>
         Booked(events)[id].tenantId == e.op.tenantId && Booked(events)[id].expiresAt <= e.op.now
  }

  lemma SweptIffNotStuck(events: seq<Event>, e: Event, key: string, id: string)
    requires LegalEvents(events) && LegalEvents(events + [e]) && DrainingSweep(events, e, key)
    requires id in Booked(events) && Booked(events)[id].counterKey == key
    ensures id in Out(events + [e]) <==> id in Stuck(events)
  {
    var ops := OpsOf(events);
    assert (events + [e])[..|events|] == events;
    EventInvariant(events);
    EventInvariant(events + [e]);
    AtMostOnce(ops + [e.op], id);
    if id in LeaseOf(ops) {
      var i := RecordedAt(ops, id);
      ExactlyOnceIff(ops, i, e.op);
    } else {
      assert (ops + [e.op])[..|ops|] == ops;
      UnrecordedIsOut(ops + [e.op], id);
      RunInvariant(ops);
    }
  }

  /** Only the sweep's own give-backs come between the two lines. */
  lemma SweepLine(events: seq<Event>, e: Event, key: string)
    requires LegalEvents(events) && LegalEvents(events + [e]) && DrainingSweep(events, e, key)
    ensures LineAfter(events + [e], key).leaked == LineAfter(events, key).leaked
    ensures LineAfter(events + [e], key).dropped == LineAfter(events, key).dropped
  {
    assert (events + [e])[..|events|] == events;
    LandedTakeOff(LineAfter(events, key), e.reply, e.backs, key);
  }

  lemma SameOf(booked: map<string, Lease>, a: map<string, Lease>, b: map<string, Lease>, key: string)
    requires forall id :: id in a ==> id in booked && a[id] == booked[id]
    requires forall id :: id in b ==> id in booked && b[id] == booked[id]
    requires forall id :: id in booked && booked[id].counterKey == key ==> (id in a <==> id in b)
    ensures Of(a, key) == Of(b, key)
  {
    forall id ensures id in Of(a, key) <==> id in Of(b, key) {}
  }

  /** Reservations of a counter, chosen in two ways that agree, hold the same amounts. */
  lemma SameAmounts(booked: map<string, Lease>, a: map<string, Lease>, b: map<string, Lease>, key: string)
    requires forall id :: id in a ==> id in booked && a[id] == booked[id]
    requires forall id :: id in b ==> id in booked && b[id] == booked[id]
    requires forall id :: id in booked && booked[id].counterKey == key ==> (id in a <==> id in b)
    ensures Amounts(a, key) == Amounts(b, key)
  {
    SameOf(booked, a, b, key);
    AmountsOf(a, key);
    AmountsOf(b, key);
  }

  lemma StoreBooksNothing(events: seq<Event>, e: Event)
    requires e.Store?
    ensures Booked(events + [e]) == Booked(events)
  {
    assert (events + [e])[..|events|] == events;
  }

  lemma OutIsStuck(events: seq<Event>, e: Event, key: string)
    requires LegalEvents(events) && LegalEvents(events + [e]) && DrainingSweep(events, e, key)
    ensures Amounts(Out(events + [e]), key) == Amounts(Stuck(events), key)
  {
    StoreBooksNothing(events, e);
    forall id | id in Booked(events) && Booked(events)[id].counterKey == key
      ensures id in Out(events + [e]) <==> id in Stuck(events)
    {
      SweptIffNotStuck(events, e, key, id);
    }
    SameAmounts(Booked(events), Out(events + [e]), Stuck(events), key);
  }

  ghost predicate NothingStuck(events: seq<Event>, key: string)
  {
    forall id :: id in Booked(events) && Booked(events)[id].counterKey == key && Booked(events)[id].amount > 0 ==>
      (Booked(events)[id].tenantId, id) in Run(OpsOf(events)).0.hash && !Lost(OpsOf(events), id)
  }

  lemma NothingStuckIff(events: seq<Event>, key: string)
    requires LegalEvents(events)
    ensures Amounts(Stuck(events), key) >= 0
    ensures Amounts(Stuck(events), key) == 0 <==> NothingStuck(events, key)
  {
    EventInvariant(events);
    var stuck := Stuck(events);
    AmountsNonNegative(stuck, key);
    if NothingStuck(events, key) {
      forall id | id in stuck ensures AmountOf(stuck[id], key) == 0 {
        assert id in Booked(events) && stuck[id] == Booked(events)[id];
      }
    } else {
      var id :| id in Booked(events) && Booked(events)[id].counterKey == key && Booked(events)[id].amount > 0
                && !((Booked(events)[id].tenantId, id) in Run(OpsOf(events)).0.hash && !Lost(OpsOf(events), id));
      assert id in stuck && AmountOf(stuck[id], key) > 0;
    }
  }

  /** After a failure-free sweep of the tenant past the expiry of a counter's reservations, the counter holds the
      amounts that are stuck and those that leaked before, but for dropped takes. With every take landed it holds
      exactly that, and is back at zero if and only if nothing leaked and every reservation of a positive amount
      has a hash copy and was not lost. */
  lemma SweepDrainsCounter(events: seq<Event>, e: Event, key: string)
    requires LegalEvents(events) && LegalEvents(events + [e]) && DrainingSweep(events, e, key)
    ensures var line, after := LineAfter(events, key), LineAfter(events + [e], key).value;
            && after + line.dropped >= Amounts(Stuck(events), key) + line.leaked
            && (line.dropped == 0 ==>
                  && after == Amounts(Stuck(events), key) + line.leaked
                  && (after == 0 <==> line.leaked == 0 && NothingStuck(events, key)))
  {
    CounterIsOutstandingLeases(events, key);
    CounterIsOutstandingLeases(events + [e], key);
    SweepLine(events, e, key);
    OutIsStuck(events, e, key);
    NothingStuckIff(events, key);
  }

  lemma {:induction false} LandedTakeOff(line: Line, list: seq<Lease>, backs: string -> Fate, key: string)
    requires forall id :: backs(id).Lands()
    ensures TakeOff(line, list, backs, key).leaked == line.leaked
            && TakeOff(line, list, backs, key).dropped == line.dropped
  {
    if list == [] {
    } else {
      LandedTakeOff(line, list[..|list| - 1], backs, key);
    }
  }
}
