/** Quota counters: the atomic increment, the saturating adjust, and reservations taken from one counter by
    any number of interleaved requests. */
module Counters {
  import opened Base

  /** The saturating adjust as a function of the stored value. */
  function Adjust(v: int, delta: int): int { if v + delta <= 0 then 0 else v + delta }

  /** A script call on a counter: the value it leaves and the value its caller reads, 0 when the call is reported
      as failed. */
  function AdjustCall(v: int, delta: int, fate: Fate): (int, int)
  {
    var stored := if fate.Lands() then Adjust(v, delta) else v;
    (stored, if fate.Done? then stored else 0)
  }

  ghost function ValueAt(counters: map<string, int>, key: string): int
  {
    if key in counters then counters[key] else 0
  }

  class CounterStore {
    var counters: map<string, int>

    /** INCRBY: the new total, admitted while it stays within the limit. A call reported as failed admits nothing. */
    method IncrementRuntimeQuotaCounter(key: string, increment: int, limit: int, fate: Fate)
      returns (current: int, allowed: bool)
      modifies this
      ensures fate.Lands() ==> counters == old(counters)[key := old(ValueAt(counters, key)) + increment]
      ensures !fate.Lands() ==> counters == old(counters)
      ensures fate.Done? ==> current == ValueAt(counters, key) && (allowed <==> current <= limit)
      ensures !fate.Done? ==> current == limit && !allowed
    {
      var total := (if key in counters then counters[key] else 0) + increment;
      if fate.Lands() { counters := counters[key := total]; }
      if !fate.Done? { return limit, false; }
      return total, total <= limit;
    }

    /** A reading is never negative, and zero when the server cannot be reached. */
    method RuntimePolicyCounter(key: string, readOk: bool) returns (value: int)
      ensures value >= 0 && value == if readOk then Adjust(ValueAt(counters, key), 0) else 0
    {
      value := if readOk && key in counters && counters[key] > 0 then counters[key] else 0;
    }

    /** The script: a value that would fall to zero or below is stored by deleting the key. */
    method AdjustRuntimePolicyCounter(key: string, delta: int, fate: Fate) returns (value: int)
      modifies this
      ensures (ValueAt(counters, key), value) == AdjustCall(old(ValueAt(counters, key)), delta, fate)
      ensures fate.Lands() ==> (key in counters <==> ValueAt(counters, key) > 0)
      ensures counters - {key} == old(counters) - {key}
    {
      var total := (if key in counters then counters[key] else 0) + delta;
      if fate.Lands() {
        if total <= 0 {
          counters := counters - {key};
          total := 0;
        } else {
          counters := counters[key := total];
        }
      }
      return if fate.Done? then total else 0;
    }
  }

  // ---------- closed form ----------

  ghost function Sum(s: seq<int>): int
  {
    if s == [] then 0 else Sum(s[..|s| - 1]) + s[|s| - 1]
  }

  ghost function AdjustAll(v: int, deltas: seq<int>): int
  {
    if deltas == [] then v else Adjust(AdjustAll(v, deltas[..|deltas| - 1]), deltas[|deltas| - 1])
  }

  /** The greater of the plain sum and the greatest sum of a proper suffix, the empty suffix counting as 0. */
  ghost predicate IsGreatest(r: int, v: int, deltas: seq<int>)
  {
    && r >= v + Sum(deltas)
    && (forall i :: 1 <= i <= |deltas| ==> r >= Sum(deltas[i..]))
    && (r == v + Sum(deltas) || exists i :: 1 <= i <= |deltas| && r == Sum(deltas[i..]))
  }

  lemma SumSuffixLast(s: seq<int>, i: nat)
    requires i < |s|
    ensures Sum(s[i..]) == Sum(s[..|s| - 1][i..]) + s[|s| - 1]
  {
    assert s[i..][..|s| - 1 - i] == s[..|s| - 1][i..];
  }

  lemma {:induction false} AdjustClosedForm(v: int, deltas: seq<int>)
    requires v >= 0 && deltas != []
    ensures IsGreatest(AdjustAll(v, deltas), v, deltas)
    ensures AdjustAll(v, deltas) >= 0
  {
    var init, last, n := deltas[..|deltas| - 1], deltas[|deltas| - 1], |deltas|;
    var r0, r := AdjustAll(v, init), AdjustAll(v, deltas);
    assert Sum(deltas[n..]) == 0;
    if init == [] {
    } else {
      AdjustClosedForm(v, init);
      forall i | 1 <= i <= n ensures r >= Sum(deltas[i..]) {
        if i < n { SumSuffixLast(deltas, i); }
      }
      if r == r0 + last && r0 != v + Sum(init) {
        var i :| 1 <= i <= |init| && r0 == Sum(init[i..]);
        SumSuffixLast(deltas, i);
        assert r == Sum(deltas[i..]);
      }
    }
  }

  lemma {:induction false} SumSplit(s: seq<int>, i: nat)
    requires i <= |s|
    ensures Sum(s) == Sum(s[..i]) + Sum(s[i..])
  {
    if i == |s| {
      assert s[..i] == s && s[i..] == [];
    } else {
      SumSplit(s[..|s| - 1], i);
      assert s[..|s| - 1][..i] == s[..i];
      SumSuffixLast(s, i);
    }
  }

  /** No clamp shows exactly when no running total went below zero. */
  lemma AdjustIsPlainSumIff(v: int, deltas: seq<int>)
    requires v >= 0
    ensures AdjustAll(v, deltas) == v + Sum(deltas) <==> forall i :: 0 <= i <= |deltas| ==> v + Sum(deltas[..i]) >= 0
  {
    if deltas != [] {
      AdjustClosedForm(v, deltas);
      forall i | 0 <= i <= |deltas| ensures Sum(deltas) == Sum(deltas[..i]) + Sum(deltas[i..]) { SumSplit(deltas, i); }
      assert deltas[..0] == [];
    }
  }

  // ---------- reservations from one counter ----------

  /** One request's view of the counter: nothing booked, an admitted amount, or a refused amount that has not
      been taken back yet. */
  datatype Slot = Idle | Held(amount: nat) | Refused(amount: nat)

  datatype Pool = Pool(value: int, slots: seq<Slot>)

  /** The calls, each by one request: take with the script, take with INCRBY, give back. */
  datatype Action =
    | Reserve(slot: nat, amount: nat, fate: Fate)
    | Increment(slot: nat, amount: nat, fate: Fate)
    | GiveBack(slot: nat, fate: Fate)

  function Taken(current: int, amount: nat, limit: int): Slot
  {
    if current > limit then Refused(amount) else Held(amount)
  }

  /** A request takes only while it has nothing booked, and gives back only what it has booked. */
  predicate Open(p: Pool, a: Action)
  {
    a.slot < |p.slots| && (a.GiveBack? <==> !p.slots[a.slot].Idle?)
  }

  /** A script call is judged by what it reads, even if it failed; an INCRBY reported as failed books nothing;
      nobody looks at the fate of a give-back. A call that is not open to its request does not happen. */
  function Next(p: Pool, limit: int, a: Action): Pool
  {
    if !Open(p, a) then p
    else
      match a
      case Reserve(i, amount, fate) =>
        var (stored, reading) := AdjustCall(p.value, amount, fate);
        Pool(stored, p.slots[i := Taken(reading, amount, limit)])
      case Increment(i, amount, fate) =>
        Pool(if fate.Lands() then p.value + amount else p.value,
             if fate.Done? then p.slots[i := Taken(p.value + amount, amount, limit)] else p.slots)
      case GiveBack(i, fate) =>
        Pool(AdjustCall(p.value, 0 - p.slots[i].amount, fate).0, p.slots[i := Idle])
  }

  function Weight(s: Slot, heldOnly: bool): nat
  {
    match s
    case Idle => 0
    case Held(a) => a
    case Refused(a) => if heldOnly then 0 else a
  }

  /** Amounts booked and not given back; with `heldOnly`, the admitted ones among them. */
  ghost function Outstanding(slots: seq<Slot>, heldOnly: bool): nat
  {
    if slots == [] then 0 else Weight(slots[0], heldOnly) + Outstanding(slots[1..], heldOnly)
  }

  /** Amounts on the counter that nobody has booked: give-backs that did not land, and INCRBYs that landed
      although they were reported as failed. */
  function Leaks(p: Pool, a: Action): nat
  {
    if !Open(p, a) then 0
    else if a.GiveBack? then (if a.fate.Lands() then 0 else p.slots[a.slot].amount)
    else if a.Increment? && a.fate.FailedAfter? then a.amount else 0
  }

  /** Amounts booked that never reached the counter: reservations that failed without effect. */
  function Drops(p: Pool, a: Action): nat
  {
    if Open(p, a) && a.Reserve? && a.fate.FailedBefore? then a.amount else 0
  }

  /** Amounts admitted on the reading of a failed call. */
  function Unread(p: Pool, limit: int, a: Action): nat
  {
    if Open(p, a) && a.Reserve? && !a.fate.Done? && limit >= 0 then a.amount else 0
  }

  /** A pool with the totals of what went wrong on the way to it. */
  datatype Books = Books(pool: Pool, leaked: nat, dropped: nat, unread: nat)

  function Enter(b: Books, limit: int, a: Action): Books
  {
    Books(Next(b.pool, limit, a), b.leaked + Leaks(b.pool, a), b.dropped + Drops(b.pool, a),
          b.unread + Unread(b.pool, limit, a))
  }

  ghost function Exec(n: nat, limit: int, actions: seq<Action>): Books
  {
    if actions == [] then Books(Pool(0, seq(n, _ => Idle)), 0, 0, 0)
    else Enter(Exec(n, limit, actions[..|actions| - 1]), limit, actions[|actions| - 1])
  }

  lemma {:induction false} OutstandingUpdate(slots: seq<Slot>, i: nat, s: Slot, heldOnly: bool)
    requires i < |slots|
    ensures Outstanding(slots[i := s], heldOnly) + Weight(slots[i], heldOnly)
         == Outstanding(slots, heldOnly) + Weight(s, heldOnly)
  {
    if i == 0 {
      assert slots[0 := s][1..] == slots[1..];
    } else {
      OutstandingUpdate(slots[1..], i - 1, s, heldOnly);
      assert slots[i := s][1..] == slots[1..][i - 1 := s];
    }
  }

  lemma {:induction false} HeldWithinOutstanding(slots: seq<Slot>)
    ensures Outstanding(slots, true) <= Outstanding(slots, false)
  {
    if slots == [] {
    } else {
      HeldWithinOutstanding(slots[1..]);
    }
  }

  lemma {:induction false} NothingOutstanding(n: nat, heldOnly: bool)
    ensures Outstanding(seq(n, _ => Idle), heldOnly) == 0
  {
    if n == 0 {
    } else {
      assert seq(n, _ => Idle)[1..] == seq(n - 1, _ => Idle);
      NothingOutstanding(n - 1, heldOnly);
    }
  }

  /** The greatest total that may be admitted. */
  function Cap(limit: int): nat { if limit < 0 then 0 else limit }

  /** The counter is what is booked plus what has leaked. */
  ghost predicate Balanced(b: Books)
  {
    b.pool.value == Outstanding(b.pool.slots, false) + b.leaked
  }

  ghost predicate WithinLimit(b: Books, limit: int)
  {
    Outstanding(b.pool.slots, true) <= Cap(limit)
  }

  /** What holds whatever fails: the counter misses at most the dropped amounts, and the admitted amounts pass
      the limit by at most those admitted on a failed reading. */
  ghost predicate Bounded(b: Books, limit: int)
  {
    && b.pool.value >= 0
    && b.pool.value + b.dropped >= Outstanding(b.pool.slots, false) + b.leaked
    && (b.dropped == 0 ==> Balanced(b))
    && Outstanding(b.pool.slots, true) <= Cap(limit) + b.unread
    && (limit >= 0 ==> b.dropped <= b.unread)
  }

  /** How the totals move when a request's slot changes. */
  lemma SlotMoves(p: Pool, limit: int, a: Action)
    requires Open(p, a)
    ensures var q := Next(p, limit, a);
            && |q.slots| == |p.slots|
            && (forall heldOnly :: Outstanding(q.slots, heldOnly) + Weight(p.slots[a.slot], heldOnly)
                                == Outstanding(p.slots, heldOnly) + Weight(q.slots[a.slot], heldOnly))
            && Outstanding(q.slots, true) <= Outstanding(q.slots, false)
  {
    var slots' := Next(p, limit, a).slots;
    assert slots' == p.slots[a.slot := slots'[a.slot]];
    OutstandingUpdate(p.slots, a.slot, slots'[a.slot], false);
    OutstandingUpdate(p.slots, a.slot, slots'[a.slot], true);
    HeldWithinOutstanding(slots');
  }

  lemma EnterBounded(b: Books, limit: int, a: Action)
    requires Bounded(b, limit)
    ensures Bounded(Enter(b, limit, a), limit)
  {
    if Open(b.pool, a) { SlotMoves(b.pool, limit, a); }
  }

  lemma {:induction false} RunsAreBounded(n: nat, limit: int, actions: seq<Action>)
    ensures Bounded(Exec(n, limit, actions), limit)
  {
    if actions == [] {
      NothingOutstanding(n, false);
      NothingOutstanding(n, true);
    } else {
      RunsAreBounded(n, limit, actions[..|actions| - 1]);
      EnterBounded(Exec(n, limit, actions[..|actions| - 1]), limit, actions[|actions| - 1]);
    }
  }

  /** In every interleaving, whatever fails, the counter holds what is booked and what has leaked but for the
      dropped amounts, and the admitted amounts pass the limit by at most those admitted on a failed reading.
      If nothing was dropped the books are exact and no give-back is clamped. */
  lemma CounterIsAllocator(n: nat, limit: int, actions: seq<Action>)
    ensures var b := Exec(n, limit, actions);
            && b.pool.value >= 0
            && b.pool.value + b.dropped >= Outstanding(b.pool.slots, false) + b.leaked
            && Outstanding(b.pool.slots, true) <= Cap(limit) + b.unread
            && (b.dropped == 0 ==>
                  && b.pool.value == Outstanding(b.pool.slots, false) + b.leaked
                  && forall i :: 0 <= i < |b.pool.slots| && !b.pool.slots[i].Idle? ==>
                       Next(b.pool, limit, GiveBack(i, Done)).value == b.pool.value - b.pool.slots[i].amount)
  {
    RunsAreBounded(n, limit, actions);
    var b := Exec(n, limit, actions);
    if b.dropped == 0 {
      forall i | 0 <= i < |b.pool.slots| && !b.pool.slots[i].Idle?
        ensures Next(b.pool, limit, GiveBack(i, Done)).value == b.pool.value - b.pool.slots[i].amount
      {
        SlotMoves(b.pool, limit, GiveBack(i, Done));
      }
    }
  }

  /** A run in which no script call that takes fails: the limit holds, and the surplus is exactly what leaked. */
  lemma {:induction false} SoundTakesKeepTheLimit(n: nat, limit: int, actions: seq<Action>)
    requires forall k :: 0 <= k < |actions| && actions[k].Reserve? ==> actions[k].fate.Done?
    ensures Balanced(Exec(n, limit, actions)) && WithinLimit(Exec(n, limit, actions), limit)
    ensures Exec(n, limit, actions).dropped == 0 && Exec(n, limit, actions).unread == 0
  {
    RunsAreBounded(n, limit, actions);
    if actions == [] {
    } else {
      SoundTakesKeepTheLimit(n, limit, actions[..|actions| - 1]);
    }
  }

  /** A failed reservation, fate by fate: books that balanced survive it exactly when it landed or its amount is
      zero, and the limit survives it exactly when it had room after all or admits nothing anyway. */
  lemma FailedReserve(b: Books, limit: int, i: nat, amount: nat, fate: Fate)
    requires WithinLimit(b, limit) && b.pool.value >= 0
    requires !fate.Done? && Open(b.pool, Reserve(i, amount, fate))
    ensures Balanced(b) ==>
              (Balanced(Enter(b, limit, Reserve(i, amount, fate))) <==> fate.FailedAfter? || amount == 0)
    ensures WithinLimit(Enter(b, limit, Reserve(i, amount, fate)), limit) <==>
            limit < 0 || Outstanding(b.pool.slots, true) + amount <= limit
  {
    SlotMoves(b.pool, limit, Reserve(i, amount, fate));
  }

  lemma {:induction false} DroppedGrows(n: nat, limit: int, actions: seq<Action>, k: nat)
    requires k <= |actions|
    ensures Exec(n, limit, actions[..k]).dropped <= Exec(n, limit, actions).dropped
  {
    if k == |actions| {
      assert actions[..k] == actions;
    } else {
      assert actions[..|actions| - 1][..k] == actions[..k];
      DroppedGrows(n, limit, actions[..|actions| - 1], k);
    }
  }

  /** The first dropped amount leaves the books unbalanced. */
  lemma {:induction false} DropUnbalances(n: nat, limit: int, actions: seq<Action>) returns (k: nat)
    requires Exec(n, limit, actions).dropped > 0
    ensures k <= |actions| && !Balanced(Exec(n, limit, actions[..k]))
  {
    var init := actions[..|actions| - 1];
    var b, a := Exec(n, limit, init), actions[|actions| - 1];
    if b.dropped > 0 {
      k := DropUnbalances(n, limit, init);
      assert init[..k] == actions[..k];
    } else {
      k := |actions|;
      assert actions[..k] == actions;
      RunsAreBounded(n, limit, init);
      SlotMoves(b.pool, limit, a);
    }
  }

  /** The books balance all the way through a run exactly when no reservation of a positive amount failed
      without effect. */
  lemma BooksBalanceIff(n: nat, limit: int, actions: seq<Action>)
    ensures (forall k :: 0 <= k <= |actions| ==> Balanced(Exec(n, limit, actions[..k])))
       <==> Exec(n, limit, actions).dropped == 0
  {
    if Exec(n, limit, actions).dropped == 0 {
      forall k | 0 <= k <= |actions| ensures Balanced(Exec(n, limit, actions[..k])) {
        DroppedGrows(n, limit, actions, k);
        RunsAreBounded(n, limit, actions[..k]);
      }
    } else {
      var k := DropUnbalances(n, limit, actions);
    }
  }

  /** What a call that takes is judged by. */
  function Reading(p: Pool, a: Action): int
    requires !a.GiveBack?
  {
    if a.Reserve? then AdjustCall(p.value, a.amount, a.fate).1 else p.value + a.amount
  }

  /** The call is admitted although there is no room for it: it failed and reads 0, or it reads a counter that
      misses an amount dropped before. */
  ghost predicate Overruns(p: Pool, limit: int, a: Action)
  {
    && Open(p, a) && !a.GiveBack? && (a.Increment? ==> a.fate.Done?)
    && Reading(p, a) <= limit && Outstanding(p.slots, true) + a.amount > Cap(limit)
  }

  lemma WithinLimitStep(b: Books, limit: int, a: Action)
    requires Bounded(b, limit) && WithinLimit(b, limit)
    ensures WithinLimit(Enter(b, limit, a), limit) <==> !Overruns(b.pool, limit, a)
  {
    if Open(b.pool, a) { SlotMoves(b.pool, limit, a); }
  }

  /** The admitted amounts are within the limit after every prefix of the run. */
  ghost predicate AlwaysWithin(n: nat, limit: int, actions: seq<Action>)
  {
    WithinLimit(Exec(n, limit, actions), limit) && (actions != [] ==> AlwaysWithin(n, limit, actions[..|actions| - 1]))
  }

  /** No call of the run overruns. */
  ghost predicate NeverOverruns(n: nat, limit: int, actions: seq<Action>)
  {
    actions != [] ==>
      && NeverOverruns(n, limit, actions[..|actions| - 1])
      && !Overruns(Exec(n, limit, actions[..|actions| - 1]).pool, limit, actions[|actions| - 1])
  }

  /** Whatever fails, the admitted amounts stay within the limit all the way through a run exactly when no call is
      admitted without room. */
  lemma {:induction false} LimitHoldsIff(n: nat, limit: int, actions: seq<Action>)
    ensures AlwaysWithin(n, limit, actions) <==> NeverOverruns(n, limit, actions)
  {
    if actions == [] {
      NothingOutstanding(n, true);
    } else {
      var init := actions[..|actions| - 1];
      var b := Exec(n, limit, init);
      LimitHoldsIff(n, limit, init);
      RunsAreBounded(n, limit, init);
      if WithinLimit(b, limit) { WithinLimitStep(b, limit, actions[|actions| - 1]); }
    }
  }

  /** Two reservations, one after the other, from an unused counter. */
  lemma TwoReserves(limit: int, first: Action, second: Action)
    requires first.Reserve? && first.slot == 0 && second.Reserve? && second.slot == 1
    ensures var one := AdjustCall(0, first.amount, first.fate);
            var two := AdjustCall(one.0, second.amount, second.fate);
            Exec(2, limit, [first, second]).pool
            == Pool(two.0, [Taken(one.1, first.amount, limit), Taken(two.1, second.amount, limit)])
  {
    var actions := [first, second];
    assert actions[..1] == [first] && [first][..0] == [];
    assert Exec(2, limit, []).pool == Pool(0, [Idle, Idle]);
  }

  lemma OutstandingOfTwo(s: Slot, t: Slot, heldOnly: bool)
    ensures Outstanding([s, t], heldOnly) == Weight(s, heldOnly) + Weight(t, heldOnly)
  {
    var one := [t];
    assert [s, t][1..] == one && one[1..] == [];
    assert Outstanding(one, heldOnly) == Weight(t, heldOnly);
  }

  /** The limit does break: with all of it taken, one more reservation whose call fails is admitted. */
  lemma FailedTakePassesLimit(limit: nat, fate: Fate)
    requires !fate.Done?
    ensures Outstanding(Exec(2, limit, [Reserve(0, limit, Done), Reserve(1, 1, fate)]).pool.slots, true) == limit + 1
  {
    TwoReserves(limit, Reserve(0, limit, Done), Reserve(1, 1, fate));
    OutstandingOfTwo(Held(limit), Held(1), true);
  }

  /** It also breaks later, at a call that is done: the whole limit is admitted twice, because the first amount
      never reached the counter. */
  lemma DroppedTakePassesLimit(limit: nat)
    ensures var actions := [Reserve(0, limit, FailedBefore), Reserve(1, limit, Done)];
            Outstanding(Exec(2, limit, actions).pool.slots, true) == 2 * limit
  {
    TwoReserves(limit, Reserve(0, limit, FailedBefore), Reserve(1, limit, Done));
    OutstandingOfTwo(Held(limit), Held(limit), true);
  }
}
