/** Lease operations that overlap: each reads once and then writes its leases copy by copy, and the writes of
    different calls interleave freely. */
module LeaseOverlap {
  import opened Base
  import opened Leases
  import opened LeaseRuns

  datatype Stage = KeyNext | HashNext

  /** A pair of writes under way: the record to write, and whether the lease is handed back when both are done. */
  datatype Task = Task(lease: Lease, hands: bool, stage: Stage)

  /** The server, the writes under way by call and lease id, the lease ids recorded so far and the calls begun. */
  datatype Flight = Flight(store: LeaseState, tasks: map<(nat, string), Task>, used: set<string>, calls: set<nat>)

  /** A call begins with its read; a sweep then has a pair of writes for every due lease, in any order. */
  datatype Move =
    | BeginRecord(call: nat, lease: Lease)
    | BeginRelease(call: nat, id: string, now: int)
    | BeginSweep(call: nat, tenantId: string, now: int)
    | WriteKey(call: nat, id: string, fate: Fate)
    | WriteHash(call: nat, id: string, fate: Fate)

  ghost function ByCall(call: nat, ids: set<string>): (keys: set<(nat, string)>)
    ensures forall k :: k in keys <==> k.0 == call && k.1 in ids
  {
    set id | id in ids :: (call, id)
  }

  ghost function NewTasks(s: LeaseState, m: Move): map<(nat, string), Task>
  {
    match m
    case BeginRecord(call, l) => map[(call, l.id) := Task(l, false, KeyNext)]
    case BeginRelease(call, id, now) =>
      if id in s.keys && s.keys[id].status == RESERVED
      then map[(call, id) := Task(Ended(s.keys[id], RELEASED, now), true, KeyNext)] else map[]
    case BeginSweep(call, t, now) =>
      map k | k in ByCall(call, FieldsOf(s.hash, t)) && Due(s, t, now, k.1) ::
        Task(Ended(s.hash[(t, k.1)], EXPIRED, now), true, KeyNext)
    case _ => map[]
  }

  ghost predicate At(f: Flight, call: nat, id: string, stage: Stage)
  {
    (call, id) in f.tasks && f.tasks[(call, id)].stage == stage
  }

  /** One move: the new flight, and the lease it hands back, if any. A write that fails ends its pair. */
  ghost function Next(f: Flight, m: Move): (Flight, Option<string>)
  {
    match m
    case WriteKey(call, id, fate) =>
      if !At(f, call, id, KeyNext) then (f, None)
      else
        var task := f.tasks[(call, id)];
        (Flight(if fate.Lands() then f.store.(keys := f.store.keys[id := task.lease]) else f.store,
                if fate.Done? then f.tasks[(call, id) := task.(stage := HashNext)] else f.tasks - {(call, id)},
                f.used, f.calls), None)
    case WriteHash(call, id, fate) =>
      if !At(f, call, id, HashNext) then (f, None)
      else
        var task := f.tasks[(call, id)];
        var hash := f.store.hash[(task.lease.tenantId, id) := task.lease];
        (Flight(if fate.Lands() then f.store.(hash := hash) else f.store,
                f.tasks - {(call, id)}, f.used, f.calls),
         if fate.Done? && task.hands then Some(id) else None)
    case _ =>
      (Flight(f.store, f.tasks + NewTasks(f.store, m), f.used + if m.BeginRecord? then {m.lease.id} else {},
              f.calls + {m.call}), None)
  }

  // ---------- a pair of writes that nothing comes between ----------

  /** Undisturbed, the two moves of a pair are the write of a whole operation. */
  lemma PairIsWrite(f: Flight, call: nat, id: string, fates: Fates)
    requires At(f, call, id, KeyNext) && f.tasks[(call, id)].lease.id == id
    ensures var (f1, _) := Next(f, WriteKey(call, id, fates.key));
            var (f2, handed) := Next(f1, WriteHash(call, id, fates.hash));
            var task := f.tasks[(call, id)];
            && f2.tasks == f.tasks - {(call, id)}
            && f2.store == Write(f.store, task.lease, fates).0
            && (handed == Some(id) <==> task.hands && Write(f.store, task.lease, fates).1)
  {
  }

  /** Undisturbed, a release is the release of a whole-operation run. */
  lemma UndisturbedRelease(f: Flight, call: nat, id: string, now: int, fates: Fates)
    requires WellKeyed(f.store) && (call, id) !in f.tasks
    ensures var f1 := Next(f, BeginRelease(call, id, now)).0;
            var f2 := Next(f1, WriteKey(call, id, fates.key)).0;
            var (f3, handed) := Next(f2, WriteHash(call, id, fates.hash));
            var (s, back) := Step(f.store, Release(id, now, true, fates));
            f3.store == s && (handed == Some(id) <==> id in back)
  {
    var f1 := Next(f, BeginRelease(call, id, now)).0;
    if id in f.store.keys && f.store.keys[id].status == RESERVED { PairIsWrite(f1, call, id, fates); }
  }

  /** Undisturbed, a recording is that of a whole-operation run. */
  lemma UndisturbedRecord(f: Flight, call: nat, l: Lease, fates: Fates)
    requires (call, l.id) !in f.tasks
    ensures var f1 := Next(f, BeginRecord(call, l)).0;
            var (f2, _) := Next(f1, WriteKey(call, l.id, fates.key));
            var (f3, handed) := Next(f2, WriteHash(call, l.id, fates.hash));
            f3.store == Step(f.store, Record(l, fates)).0 && handed == None
  {
    PairIsWrite(Next(f, BeginRecord(call, l)).0, call, l.id, fates);
  }

  /** A sweep takes up exactly the leases whose time is over in the tenant's hash, to end them as expired. */
  lemma SweepTakesUp(s: LeaseState, sweep: Move, k: (nat, string))
    requires sweep.BeginSweep?
    ensures k in NewTasks(s, sweep) <==> k.0 == sweep.call && TimeIsOver(s, sweep.tenantId, sweep.now, k.1)
    ensures k in NewTasks(s, sweep) ==>
              var l := s.hash[(sweep.tenantId, k.1)];
              NewTasks(s, sweep)[k] == Task(l.(status := "expired", updatedAt := sweep.now), true, KeyNext)
  {
    assert (sweep.tenantId, k.1).1 == k.1;
  }

  // ---------- runs ----------

  ghost function Fly(moves: seq<Move>): Flight
  {
    if moves == [] then Flight(LeaseState(map[], map[]), map[], {}, {})
    else Next(Fly(moves[..|moves| - 1]), moves[|moves| - 1]).0
  }

  /** How often a lease was handed back. */
  ghost function Handed(moves: seq<Move>, id: string): nat
  {
    if moves == [] then 0
    else Handed(moves[..|moves| - 1], id)
         + if Next(Fly(moves[..|moves| - 1]), moves[|moves| - 1]).1 == Some(id) then 1 else 0
  }

  /** A call begins once, and leases are recorded as reserved, each under an id that was not used before. */
  ghost predicate Fresh(f: Flight, m: Move)
  {
    && (!m.WriteKey? && !m.WriteHash? ==> m.call !in f.calls)
    && (m.BeginRecord? ==> m.lease.status == RESERVED && m.lease.id !in f.used)
  }

  /** No call takes up a lease while another has writes of it under way. */
  ghost predicate Apart(f: Flight, m: Move, id: string)
  {
    (exists k :: k in NewTasks(f.store, m) && k.1 == id) ==> forall k :: k in f.tasks ==> k.1 != id
  }

  ghost predicate Legal(moves: seq<Move>)
  {
    moves != [] ==> Legal(moves[..|moves| - 1]) && Fresh(Fly(moves[..|moves| - 1]), moves[|moves| - 1])
  }

  /** From move `n` on, calls keep apart on the lease. */
  ghost predicate ApartFrom(moves: seq<Move>, n: nat, id: string)
  {
    n < |moves| ==>
      ApartFrom(moves[..|moves| - 1], n, id) && Apart(Fly(moves[..|moves| - 1]), moves[|moves| - 1], id)
  }

  ghost predicate NeverOverlaps(moves: seq<Move>, id: string) { ApartFrom(moves, 0, id) }

  // ---------- one lease, undisturbed ----------

  /** The copies of one lease agree on their tenant. */
  ghost predicate CopiesAgree(s: LeaseState, id: string)
  {
    && (id in s.keys ==> s.keys[id].id == id)
    && forall field :: field in s.hash && field.1 == id ==>
         id in s.keys && s.keys[id].tenantId == field.0 == s.hash[field].tenantId && s.hash[field].id == id
  }

  /** A pair of writes under way and the copies it will meet. */
  ghost predicate TaskFits(s: LeaseState, task: Task, id: string)
  {
    && task.lease.id == id
    && (if task.hands then task.lease.status != RESERVED && id in s.keys && s.keys[id].tenantId == task.lease.tenantId
        else task.lease.status == RESERVED && forall field :: field in s.hash ==> field.1 != id)
    && (if task.stage == KeyNext then task.hands || id !in s.keys else id in s.keys && s.keys[id] == task.lease)
  }

  ghost predicate Local(f: Flight, handed: nat, id: string)
  {
    && CopiesAgree(f.store, id)
    && (forall k :: k in f.tasks && k.1 == id ==> TaskFits(f.store, f.tasks[k], id) && handed == 0)
    && (forall k, l :: k in f.tasks && l in f.tasks && k.1 == id && l.1 == id ==> k == l)
    && (forall k :: k in f.tasks && k.1 == id ==> k.0 in f.calls)
    && (id !in f.used ==> handed == 0 && id !in f.store.keys && forall k :: k in f.tasks ==> k.1 != id)
    && handed <= 1 && (handed == 1 ==> Closed(f.store, id))
  }

  /** What a call takes up when it begins fits the copies it read, and was not handed back before. */
  ghost predicate BeginFits(f: Flight, handed: nat, m: Move, id: string)
  {
    forall k :: k in NewTasks(f.store, m) && k.1 == id ==>
      k.0 == m.call && TaskFits(f.store, NewTasks(f.store, m)[k], id) && handed == 0
      && (id in f.used || (m.BeginRecord? && m.lease.id == id))
  }

  lemma RecordFits(f: Flight, handed: nat, m: Move, id: string)
    requires Local(f, handed, id) && Fresh(f, m) && m.BeginRecord?
    ensures BeginFits(f, handed, m, id)
  {
  }

  lemma ReleaseFits(f: Flight, handed: nat, m: Move, id: string)
    requires Local(f, handed, id) && m.BeginRelease?
    ensures BeginFits(f, handed, m, id)
  {
  }

  lemma SweepFits(f: Flight, handed: nat, m: Move, id: string)
    requires Local(f, handed, id) && m.BeginSweep?
    ensures BeginFits(f, handed, m, id)
  {
    forall k | k in NewTasks(f.store, m) && k.1 == id
      ensures k.0 == m.call && TaskFits(f.store, NewTasks(f.store, m)[k], id) && handed == 0 && id in f.used
    {
      assert (m.tenantId, id).1 == id;
    }
  }

  lemma BeginTakesUp(f: Flight, handed: nat, m: Move, id: string)
    requires Local(f, handed, id) && Fresh(f, m) && !m.WriteKey? && !m.WriteHash?
    ensures BeginFits(f, handed, m, id)
  {
    match m
    case BeginRecord(_, _) => RecordFits(f, handed, m, id);
    case BeginRelease(_, _, _) => ReleaseFits(f, handed, m, id);
    case BeginSweep(_, _, _) => SweepFits(f, handed, m, id);
  }

  lemma BeginKeepsLocal(f: Flight, handed: nat, m: Move, id: string)
    requires Local(f, handed, id) && Apart(f, m, id) && BeginFits(f, handed, m, id) && !m.WriteKey? && !m.WriteHash?
    ensures Local(Next(f, m).0, handed, id) && Next(f, m).1 != Some(id)
  {
    var f' := Next(f, m).0;
    forall k | k in f'.tasks && k.1 == id ensures TaskFits(f'.store, f'.tasks[k], id) && handed == 0 {
      if k in NewTasks(f.store, m) { assert f'.tasks[k] == NewTasks(f.store, m)[k]; }
    }
  }

  /** Writes of another lease leave this one alone. */
  lemma OtherWritesKeepLocal(f: Flight, handed: nat, m: Move, id: string)
    requires Local(f, handed, id) && (m.WriteKey? || m.WriteHash?) && m.id != id
    ensures Local(Next(f, m).0, handed, id) && Next(f, m).1 != Some(id)
  {
    OtherWritesKeepStore(f, m, id);
    OtherWritesKeepTasks(f, m, id);
  }

  lemma OtherWritesKeepStore(f: Flight, m: Move, id: string)
    requires (m.WriteKey? || m.WriteHash?) && m.id != id
    ensures var s, t := f.store, Next(f, m).0.store;
            && (id in s.keys <==> id in t.keys) && (id in s.keys ==> s.keys[id] == t.keys[id])
            && (forall field: (string, string) :: field.1 == id ==> (field in s.hash <==> field in t.hash))
            && (forall field: (string, string) :: field.1 == id && field in s.hash ==> s.hash[field] == t.hash[field])
  {
  }

  lemma OtherWritesKeepTasks(f: Flight, m: Move, id: string)
    requires (m.WriteKey? || m.WriteHash?) && m.id != id
    ensures var g := Next(f, m).0;
            && (forall k: (nat, string) :: k.1 == id ==> (k in f.tasks <==> k in g.tasks))
            && (forall k: (nat, string) :: k.1 == id && k in f.tasks ==> f.tasks[k] == g.tasks[k])
            && g.calls == f.calls && g.used == f.used && Next(f, m).1 != Some(id)
  {
  }

  lemma WriteKeyKeepsLocal(f: Flight, handed: nat, m: Move, id: string)
    requires Local(f, handed, id) && m.WriteKey?
    ensures Local(Next(f, m).0, handed, id) && Next(f, m).1 != Some(id)
  {
    if m.id != id {
      OtherWritesKeepLocal(f, handed, m, id);
    } else if At(f, m.call, id, KeyNext) {
      assert TaskFits(f.store, f.tasks[(m.call, id)], id);
      assert forall k :: k in Next(f, m).0.tasks && k.1 == id ==> k == (m.call, id);
    }
  }

  lemma WriteHashKeepsLocal(f: Flight, handed: nat, m: Move, id: string)
    requires Local(f, handed, id) && m.WriteHash?
    ensures Local(Next(f, m).0, handed + if Next(f, m).1 == Some(id) then 1 else 0, id)
  {
    if m.id != id {
      OtherWritesKeepLocal(f, handed, m, id);
    } else if At(f, m.call, id, HashNext) {
      assert TaskFits(f.store, f.tasks[(m.call, id)], id);
      assert forall k :: k in Next(f, m).0.tasks ==> k.1 != id;
    }
  }

  lemma {:induction false} RunsKeepLocal(moves: seq<Move>, id: string)
    requires Legal(moves) && NeverOverlaps(moves, id)
    ensures Local(Fly(moves), Handed(moves, id), id)
  {
    if moves == [] {
    } else {
      var init, m := moves[..|moves| - 1], moves[|moves| - 1];
      RunsKeepLocal(init, id);
      var f, handed := Fly(init), Handed(init, id);
      match m
      case WriteKey(_, _, _) => WriteKeyKeepsLocal(f, handed, m, id);
      case WriteHash(_, _, _) => WriteHashKeepsLocal(f, handed, m, id);
      case _ =>
        BeginTakesUp(f, handed, m, id);
        BeginKeepsLocal(f, handed, m, id);
    }
  }

  /** However the writes of different calls interleave and whatever fails, a lease is handed back at most once
      if no call takes it up while another has writes of it under way; other leases may overlap freely. */
  lemma AtMostOnceApart(moves: seq<Move>, id: string)
    requires Legal(moves) && NeverOverlaps(moves, id)
    ensures Handed(moves, id) <= 1
  {
    RunsKeepLocal(moves, id);
  }

  // ---------- calls that overlap ----------

  /** A legal continuation in which calls keep apart on the lease, from move `n` on. */
  ghost predicate Continues(run: seq<Move>, moves: seq<Move>, n: nat, id: string)
  {
    moves <= run && Legal(run) && ApartFrom(run, n, id) && (NothingFails(moves) ==> NothingFails(run))
  }

  ghost predicate NothingFails(moves: seq<Move>)
  {
    forall m :: m in moves && (m.WriteKey? || m.WriteHash?) ==> m.fate.Done?
  }

  /** One more move. */
  lemma Append(moves: seq<Move>, m: Move, n: nat, id: string)
    requires Legal(moves) && ApartFrom(moves, n, id)
    requires Fresh(Fly(moves), m) && (n <= |moves| ==> Apart(Fly(moves), m, id))
    requires m.WriteKey? || m.WriteHash? ==> m.fate.Done?
    ensures Continues(moves + [m], moves, n, id) && Fly(moves + [m]) == Next(Fly(moves), m).0
    ensures Handed(moves + [m], id) == Handed(moves, id) + if Next(Fly(moves), m).1 == Some(id) then 1 else 0
  {
    assert (moves + [m])[..|moves + [m]| - 1] == moves;
  }

  /** What a call leaves when it completes its writes of a lease. */
  ghost predicate Completed(f: Flight, g: Flight, call: nat, id: string)
    requires (call, id) in f.tasks
  {
    var task := f.tasks[(call, id)];
    && g.tasks == f.tasks - {(call, id)} && g.calls == f.calls
    && g.store.hash == f.store.hash[(task.lease.tenantId, id) := task.lease]
  }

  lemma WriteKeyDone(f: Flight, call: nat, id: string)
    requires At(f, call, id, KeyNext)
    ensures var (g, handed) := Next(f, WriteKey(call, id, Done));
            && At(g, call, id, HashNext) && g.tasks == f.tasks[(call, id) := f.tasks[(call, id)].(stage := HashNext)]
            && g.store.hash == f.store.hash && g.calls == f.calls && handed == None
  {
  }

  lemma WriteHashDone(f: Flight, call: nat, id: string)
    requires At(f, call, id, HashNext)
    ensures var (g, handed) := Next(f, WriteHash(call, id, Done));
            Completed(f, g, call, id) && handed == if f.tasks[(call, id)].hands then Some(id) else None
  {
  }

  lemma CompleteHash(moves: seq<Move>, call: nat, n: nat, id: string) returns (run: seq<Move>)
    requires Legal(moves) && ApartFrom(moves, n, id) && At(Fly(moves), call, id, HashNext)
    ensures Continues(run, moves, n, id) && Completed(Fly(moves), Fly(run), call, id)
    ensures Handed(run, id) == Handed(moves, id) + if Fly(moves).tasks[(call, id)].hands then 1 else 0
  {
    Append(moves, WriteHash(call, id, Done), n, id);
    WriteHashDone(Fly(moves), call, id);
    run := moves + [WriteHash(call, id, Done)];
  }

  /** A call completes its writes of a lease, without failure and with nothing in between. */
  lemma Complete(moves: seq<Move>, call: nat, n: nat, id: string) returns (run: seq<Move>)
    requires Legal(moves) && ApartFrom(moves, n, id) && (call, id) in Fly(moves).tasks
    ensures Continues(run, moves, n, id) && Completed(Fly(moves), Fly(run), call, id)
    ensures Handed(run, id) == Handed(moves, id) + if Fly(moves).tasks[(call, id)].hands then 1 else 0
  {
    if Fly(moves).tasks[(call, id)].stage == HashNext {
      run := CompleteHash(moves, call, n, id);
    } else {
      var m := WriteKey(call, id, Done);
      Append(moves, m, n, id);
      WriteKeyDone(Fly(moves), call, id);
      run := CompleteHash(moves + [m], call, n, id);
      assert Fly(moves + [m]).tasks - {(call, id)} == Fly(moves).tasks - {(call, id)};
    }
  }

  /** Two calls that are about to hand the same lease back both do. */
  lemma BothHandBack(moves: seq<Move>, first: nat, second: nat, n: nat, id: string) returns (run: seq<Move>)
    requires Legal(moves) && ApartFrom(moves, n, id) && first != second
    requires (first, id) in Fly(moves).tasks && Fly(moves).tasks[(first, id)].hands
    requires (second, id) in Fly(moves).tasks && Fly(moves).tasks[(second, id)].hands
    ensures Continues(run, moves, n, id) && Handed(run, id) == Handed(moves, id) + 2
  {
    var half := Complete(moves, first, n, id);
    run := Complete(half, second, n, id);
  }

  lemma {:induction false} UnusedCall(calls: set<nat>) returns (call: nat)
    ensures forall c :: c in calls ==> c < call
  {
    if calls == {} {
      call := 0;
    } else {
      var c :| c in calls;
      var above := UnusedCall(calls - {c});
      call := if above <= c then c + 1 else above;
      assert forall d :: d in calls ==> d == c || d in calls - {c};
    }
  }

  /** A sweep past the expiry of a reserved hash copy that nobody else is writing hands the lease back. */
  lemma SweepHandsBack(moves: seq<Move>, l: Lease, n: nat) returns (run: seq<Move>)
    requires Legal(moves) && ApartFrom(moves, n, l.id) && (forall k :: k in Fly(moves).tasks ==> k.1 != l.id)
    requires (l.tenantId, l.id) in Fly(moves).store.hash && Fly(moves).store.hash[(l.tenantId, l.id)] == l
    requires l.status == RESERVED
    ensures Continues(run, moves, n, l.id) && Handed(run, l.id) == Handed(moves, l.id) + 1
  {
    var f := Fly(moves);
    var call := UnusedCall(f.calls);
    var m := BeginSweep(call, l.tenantId, l.expiresAt);
    Append(moves, m, n, l.id);
    assert (l.tenantId, l.id).1 == l.id;
    assert Due(f.store, l.tenantId, l.expiresAt, l.id) && (call, l.id) in NewTasks(f.store, m);
    run := Complete(moves + [m], call, n, l.id);
  }

  /** A release that takes the lease up before its recording is complete hands it back, and a sweep that finds the
      hash copy of the recording does so again. */
  lemma RecordedLate(moves: seq<Move>, recorder: nat, releaser: nat, n: nat, id: string) returns (run: seq<Move>)
    requires Legal(moves) && ApartFrom(moves, n, id) && recorder != releaser
    requires (recorder, id) in Fly(moves).tasks && (releaser, id) in Fly(moves).tasks
    requires forall k :: k in Fly(moves).tasks && k.1 == id ==> k.0 == recorder || k.0 == releaser
    requires var task := Fly(moves).tasks[(recorder, id)];
             !task.hands && task.lease.id == id && task.lease.status == RESERVED
    requires Fly(moves).tasks[(releaser, id)].hands
    ensures Continues(run, moves, n, id) && Handed(run, id) == Handed(moves, id) + 2
  {
    var l := Fly(moves).tasks[(recorder, id)].lease;
    var released := Complete(moves, releaser, n, id);
    var recorded := Complete(released, recorder, n, id);
    run := SweepHandsBack(recorded, l, n);
  }

  /** What a call that does not keep apart takes up, and beside whom. */
  lemma TakesUpBeside(f: Flight, m: Move, id: string) returns (other: nat)
    requires Local(f, 0, id) && Fresh(f, m) && !Apart(f, m, id)
    ensures other != m.call && (other, id) in f.tasks && (m.call, id) in NewTasks(f.store, m)
    ensures NewTasks(f.store, m)[(m.call, id)].hands
    ensures forall k :: k in f.tasks && k.1 == id ==> k.0 == other
  {
    var k :| k in f.tasks && k.1 == id;
    other := k.0;
    BeginTakesUp(f, 0, m, id);
  }

  /** The flight after such a call has begun. */
  ghost predicate Beside(g: Flight, other: nat, call: nat, id: string)
  {
    && other != call && (other, id) in g.tasks && (call, id) in g.tasks && g.tasks[(call, id)].hands
    && (forall k :: k in g.tasks && k.1 == id ==> k.0 == other || k.0 == call)
    && TaskIsOwn(g.tasks[(other, id)], id)
  }

  ghost predicate TaskIsOwn(task: Task, id: string)
  {
    task.lease.id == id && (!task.hands ==> task.lease.status == RESERVED)
  }

  lemma BeginsBeside(f: Flight, m: Move, id: string) returns (other: nat)
    requires Local(f, 0, id) && Fresh(f, m) && !Apart(f, m, id)
    ensures Beside(Next(f, m).0, other, m.call, id)
  {
    other := TakesUpBeside(f, m, id);
    assert TaskFits(f.store, f.tasks[(other, id)], id);
    BeginTakesUp(f, 0, m, id);
    assert (other, id) !in NewTasks(f.store, m);
  }

  lemma BesideHandsBackTwice(moves: seq<Move>, other: nat, call: nat, n: nat, id: string) returns (run: seq<Move>)
    requires Legal(moves) && ApartFrom(moves, n, id) && Beside(Fly(moves), other, call, id)
    ensures Continues(run, moves, n, id) && Handed(run, id) == Handed(moves, id) + 2
  {
    if Fly(moves).tasks[(other, id)].hands {
      run := BothHandBack(moves, other, call, n, id);
    } else {
      run := RecordedLate(moves, other, call, n, id);
    }
  }

  /** Nothing was handed back yet when a call overlaps with another. */
  lemma NotHandedYet(moves: seq<Move>, m: Move, id: string)
    requires Legal(moves) && NeverOverlaps(moves, id) && !Apart(Fly(moves), m, id)
    ensures Handed(moves, id) == 0 && Local(Fly(moves), 0, id)
  {
    RunsKeepLocal(moves, id);
  }

  /** However a run got there without overlap, a call that takes a lease up while another has writes of it under
      way can be continued to a second hand-back, with no further overlap and no further failure. */
  lemma OverlapCanHandBackTwice(moves: seq<Move>, m: Move, id: string) returns (run: seq<Move>)
    requires Legal(moves) && NeverOverlaps(moves, id) && Fresh(Fly(moves), m) && !Apart(Fly(moves), m, id)
    ensures Continues(run, moves + [m], |moves| + 1, id) && Handed(run, id) == 2
  {
    NotHandedYet(moves, m, id);
    var other := BeginsBeside(Fly(moves), m, id);
    Append(moves, m, |moves| + 1, id);
    run := BesideHandsBackTwice(moves + [m], other, m.call, |moves| + 1, id);
  }

  lemma {:induction false} ApartThroughout(run: seq<Move>, n: nat, id: string)
    requires n <= |run| && ApartFrom(run[..n], 0, id) && ApartFrom(run, n, id)
    ensures ApartFrom(run, 0, id)
  {
    if |run| == n {
      assert run[..n] == run;
    } else {
      assert run[..|run| - 1][..n] == run[..n];
      ApartThroughout(run[..|run| - 1], n, id);
    }
  }

  /** Whatever later calls do, as long as they keep apart: at most one hand-back. */
  ghost predicate SafeAfter(moves: seq<Move>, id: string)
  {
    forall run :: moves <= run && Legal(run) && ApartFrom(run, |moves|, id) ==> Handed(run, id) <= 1
  }

  lemma ApartIsSafe(moves: seq<Move>, id: string)
    requires NeverOverlaps(moves, id)
    ensures SafeAfter(moves, id)
  {
    forall run | moves <= run && Legal(run) && ApartFrom(run, |moves|, id) ensures Handed(run, id) <= 1 {
      assert run[..|moves|] == moves;
      ApartThroughout(run, |moves|, id);
      AtMostOnceApart(run, id);
    }
  }

  /** Keeping apart is exactly what a call has to do: after a run without overlap, the lease is handed back at most
      once in every continuation without overlap if and only if the call keeps apart. */
  lemma ApartIff(moves: seq<Move>, m: Move, id: string)
    requires Legal(moves) && NeverOverlaps(moves, id) && Fresh(Fly(moves), m)
    ensures SafeAfter(moves + [m], id) <==> Apart(Fly(moves), m, id)
  {
    if Apart(Fly(moves), m, id) {
      AppendApart(moves, m, id);
      ApartIsSafe(moves + [m], id);
    } else {
      var run := OverlapCanHandBackTwice(moves, m, id);
    }
  }

  lemma AppendApart(moves: seq<Move>, m: Move, id: string)
    requires NeverOverlaps(moves, id) && Apart(Fly(moves), m, id)
    ensures NeverOverlaps(moves + [m], id)
  {
    assert (moves + [m])[..|moves + [m]| - 1] == moves;
  }

  /** A lease is recorded and nothing is under way. */
  lemma Recorded(l: Lease) returns (moves: seq<Move>)
    requires l.status == RESERVED
    ensures Legal(moves) && NeverOverlaps(moves, l.id) && NothingFails(moves)
    ensures Fly(moves) == Flight(LeaseState(map[l.id := l], map[(l.tenantId, l.id) := l]), map[], {l.id}, {0})
  {
    Append([], BeginRecord(0, l), 0, l.id);
    var begun := [] + [BeginRecord(0, l)];
    Append(begun, WriteKey(0, l.id, Done), 0, l.id);
    var keyed := begun + [WriteKey(0, l.id, Done)];
    Append(keyed, WriteHash(0, l.id, Done), 0, l.id);
    moves := keyed + [WriteHash(0, l.id, Done)];
  }

  lemma SweepBesideRelease(f: Flight, l: Lease, now: int)
    requires f.store == LeaseState(map[l.id := l], map[(l.tenantId, l.id) := l]) && f.tasks == map[] && f.calls == {0}
    requires l.status == RESERVED && l.expiresAt <= now
    ensures var g, m := Next(f, BeginRelease(1, l.id, now)).0, BeginSweep(2, l.tenantId, now);
            Fresh(g, m) && !Apart(g, m, l.id)
  {
    var g, m := Next(f, BeginRelease(1, l.id, now)).0, BeginSweep(2, l.tenantId, now);
    assert (l.tenantId, l.id).1 == l.id;
    assert Due(g.store, l.tenantId, now, l.id) && (2, l.id) in NewTasks(g.store, m);
    assert (1, l.id) in g.tasks && (1, l.id).1 == (2, l.id).1 == l.id;
  }

  /** Every lease can be handed back twice, in a legal run in which nothing fails: once it is due, a sweep takes it
      up while a release is under way. */
  lemma OverlapHandsBackTwice(l: Lease, now: int) returns (run: seq<Move>)
    requires l.status == RESERVED && l.expiresAt <= now
    ensures Legal(run) && NothingFails(run) && Handed(run, l.id) == 2
  {
    var recorded := Recorded(l);
    var release, sweep := BeginRelease(1, l.id, now), BeginSweep(2, l.tenantId, now);
    Append(recorded, release, 0, l.id);
    SweepBesideRelease(Fly(recorded), l, now);
    run := OverlapCanHandBackTwice(recorded + [release], sweep, l.id);
  }
}
