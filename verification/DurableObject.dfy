/**
 The Durable Object (packages/stores/src/durable-objects.ts): the shared record table plus a sweep table of
 wall-clock expiries and one alarm. Each RPC and each alarm runs alone on the object, so it is one step.
 */
module DurableObject {
  import opened Types
  import opened Rows
  import opened Sql
  import Contract

  datatype Obj = Obj(rows: Table, sweep: map<Id, int>, alarm: Option<int>)

  const EMPTY := Obj(map[], map[], None)

  datatype Event =
    | BeginRpc(op: Operation, o: BeginOptions, graceMs: int, wall: int)
    | CompleteRpc(id: Id, fence: int, payload: Payload, now: int)
    | AbandonRpc(id: Id, fence: int)
    | PurgeRpc(now: int)
    | RemoveRpc(id: Id)
    | Alarm(wall: int)

  /** An earlier pending alarm is kept; it reschedules when it fires. */
  function Schedule(s: Obj, id: Id, wall: int): Obj {
    s.(sweep := s.sweep[id := wall],
       alarm := if s.alarm.None? || s.alarm.value > wall then Some(wall) else s.alarm)
  }

  lemma ThereIsAMin(s: set<int>)
    requires s != {}
    ensures exists m :: m in s && forall x :: x in s ==> m <= x
  {
    assert (forall m :: m !in s) ==> s == {};
    var m :| m in s;
    var rest := s - {m};
    assert forall x :: x in s ==> x == m || x in rest;
    if rest != {} {
      ThereIsAMin(rest);
      var n :| n in rest && forall x :: x in rest ==> n <= x;
      assert (if m < n then m else n) in s;
    }
  }

  ghost function Least(s: set<int>): int
    requires s != {}
  {
    ThereIsAMin(s);
    var m :| m in s && forall x :: x in s ==> m <= x;
    m
  }

  function Due(s: Obj, wall: int): set<Id> { set k | k in s.sweep && s.sweep[k] <= wall }

  /** The object after an event. */
  ghost function Next(s: Obj, ev: Event): Obj {
    match ev
    case BeginRpc(op, o, graceMs, wall) =>
      var (t, fence) := Exec(s.rows, BeginStmt(op, o));
      if fence.Some? then Schedule(s.(rows := t), op.id, wall + (o.now + o.ttlMs - o.now) + graceMs) else s
    case CompleteRpc(id, fence, p, now) => s.(rows := Exec(s.rows, CompleteStmt(id, fence, now, p)).0)
    case AbandonRpc(id, fence) =>
      var (t, deleted) := Exec(s.rows, AbandonStmt(id, fence));
      if deleted.Some? then s.(rows := t, sweep := s.sweep - {id}) else s
    case PurgeRpc(now) =>
      var t := Exec(s.rows, PurgeStmt(now)).0;
      s.(rows := t, sweep := if t.Keys != s.rows.Keys then map k | k in s.sweep && k in t :: s.sweep[k] else s.sweep)
    case RemoveRpc(id) => s.(rows := s.rows - {id}, sweep := s.sweep - {id})
    case Alarm(wall) =>
      var due := Due(s, wall);
      var left := s.sweep - due;
      Obj(s.rows - due, left, if left == map[] then None else Some(Least(left.Values)))
  }

  ghost function Run(s: Obj, evs: seq<Event>): Obj
    decreases |evs|
  {
    if evs == [] then s else Run(Next(s, evs[0]), evs[1..])
  }

  // ----- bookkeeping

  /** Every record is swept by some entry and the other way round, and an alarm is pending by the earliest entry. */
  ghost predicate Bookkept(s: Obj) {
    && s.rows.Keys == s.sweep.Keys
    && forall k :: k in s.sweep ==> s.alarm.Some? && s.alarm.value <= s.sweep[k]
  }

  lemma BookkeptStep(s: Obj, ev: Event)
    requires Bookkept(s)
    ensures Bookkept(Next(s, ev))
  {
    var s' := Next(s, ev);
    match ev
    case BeginRpc(op, o, _, _) => assert Exec(s.rows, BeginStmt(op, o)).1.None? ==> s' == s;
    case PurgeRpc(now) => assert forall k :: k in s'.rows <==> k in s.rows && s.rows[k].expiresAt > now;
    case Alarm(wall) =>
      assert s'.rows.Keys == s.rows.Keys - Due(s, wall) == s'.sweep.Keys;
      forall k | k in s'.sweep ensures s'.alarm.Some? && s'.alarm.value <= s'.sweep[k] {
        assert s'.sweep[k] in s'.sweep.Values;
      }
    case _ =>
  }

  lemma {:induction false} BookkeptRun(evs: seq<Event>, s: Obj)
    requires Bookkept(s)
    ensures Bookkept(Run(s, evs))
    decreases |evs|
  {
    if evs != [] {
      BookkeptStep(s, evs[0]);
      BookkeptRun(evs[1..], Next(s, evs[0]));
    }
  }

  /** The bookkeeping of every run of an object. */
  lemma Bookkeeping(evs: seq<Event>)
    ensures Bookkept(Run(EMPTY, evs))
  {
    BookkeptRun(evs, EMPTY);
  }

  /** An alarm leaves nothing that was due, and rearms at exactly the earliest entry that is left. */
  lemma AlarmSweeps(s: Obj, wall: int)
    requires Bookkept(s)
    ensures var s' := Next(s, Alarm(wall));
            && (forall k :: k in s.rows ==> (k in s'.rows <==> s.sweep[k] > wall))
            && (s'.rows == map[] <==> s'.alarm.None?)
            && (s'.alarm.Some? ==> s'.alarm.value > wall && exists k :: k in s'.sweep && s'.sweep[k] == s'.alarm.value)
  {
    var s' := Next(s, Alarm(wall));
    if s'.alarm.Some? {
      assert s'.alarm.value in s'.sweep.Values;
    } else {
      assert s'.sweep.Keys == {};
      assert s'.rows.Keys == {} by { BookkeptStep(s, Alarm(wall)); }
    }
  }

  /** A claim's entry falls due TTL and grace after wall time; the alarm is the earlier of it and the pending one. */
  lemma BeginSchedules(s: Obj, op: Operation, o: BeginOptions, graceMs: int, wall: int)
    ensures var t := Next(s, BeginRpc(op, o, graceMs, wall));
            var due := wall + o.ttlMs + graceMs;
            if Contract.Begin(Get(Abs(s.rows), op.id), op, o).0.Acquired? then
              && t.sweep == s.sweep[op.id := due]
              && t.alarm.Some? && t.alarm.value <= due && (t.alarm.value == due || t.alarm == s.alarm)
              && (s.alarm.Some? ==> t.alarm.value <= s.alarm.value)
            else t == s
  {
    BeginContractOn(s.rows, op, o);
  }

  /** What the removing calls take away: the one row, or the expired rows, with their sweep entries. */
  lemma RemovalsExact(s: Obj, id: Id, now: int, k: Id)
    requires Bookkept(s)
    ensures var t := Next(s, RemoveRpc(id));
            && (k in t.rows <==> k in s.rows && k != id) && (k in t.sweep <==> k in s.sweep && k != id)
            && (k in t.rows ==> t.rows[k] == s.rows[k] && t.sweep[k] == s.sweep[k])
    ensures var t := Next(s, PurgeRpc(now));
            && (k in t.rows <==> k in s.rows && s.rows[k].expiresAt > now) && (k in t.sweep <==> k in t.rows)
            && (k in t.rows ==> t.rows[k] == s.rows[k] && t.sweep[k] == s.sweep[k])
  {
    BookkeptStep(s, PurgeRpc(now));
  }

  // ----- the sweep against an object that never sweeps

  /**
   A claim as both issued it. `inObject` says that the object has had the row ever since, `inReference` the same
   of the reference: the fences of one lifetime count on, those of the next start again at 1.
   */
  datatype Holder = Holder(id: Id, fence: int, reference: int, inObject: bool, inReference: bool)

  /**
   The object beside a reference store that gets the same calls but never loses a row to an alarm. Every caller
   settles with the fence it was issued, on each side with that side's.
   */
  datatype Pair = Pair(obj: Obj, unswept: map<Id, Record>, wall: int, holders: seq<Holder>)

  /** Settling queries name the holder that makes them by its position. */
  datatype Query =
    | Begin(op: Operation, o: BeginOptions, graceMs: int)
    | Complete(h: nat, payload: Payload, now: int)
    | Abandon(h: nat)
    | Read(id: Id, now: int)
    | Purge(now: int)
    | Fire

  /** Callers' clocks are between `lo` and `hi` ahead of the object's wall clock. */
  datatype Skew = Skew(lo: int, hi: int)

  function RecordOf(s: Obj, id: Id): Option<Record> { Get(Abs(s.rows), id) }

  function Aged(h: Holder, row: Option<Row>, unswept: Option<Record>): Holder {
    h.(inObject := h.inObject && row.Some?, inReference := h.inReference && unswept.Some?)
  }

  ghost function After(p: Pair, obj: Obj, unswept: map<Id, Record>, wall: int, issued: seq<Holder>): Pair {
    var hs := p.holders;
    Pair(obj, unswept, wall,
         seq(|hs|, i requires 0 <= i < |hs| => Aged(hs[i], Get(obj.rows, hs[i].id), Get(unswept, hs[i].id)))
         + issued)
  }

  predicate Known(p: Pair, q: Query) {
    (q.Complete? ==> q.h < |p.holders|) && (q.Abandon? ==> q.h < |p.holders|)
  }

  /** The query at wall time `wall` on both sides. */
  ghost function Both(p: Pair, q: Query, wall: int): Pair
    requires Known(p, q)
  {
    match q
    case Begin(op, o, graceMs) =>
      var fence := Exec(p.obj.rows, BeginStmt(op, o)).1;
      var (answer, row) := Contract.Begin(Get(p.unswept, op.id), op, o);
      After(p, Next(p.obj, BeginRpc(op, o, graceMs, wall)), Put(p.unswept, op.id, row), wall,
            if fence.Some? && answer.Acquired? then [Holder(op.id, fence.value, answer.fence, true, true)] else [])
    case Complete(i, pay, now) =>
      var h := p.holders[i];
      After(p, Next(p.obj, CompleteRpc(h.id, h.fence, pay, now)),
            Put(p.unswept, h.id, Contract.Complete(Get(p.unswept, h.id), h.reference, pay, now).1), wall, [])
    case Abandon(i) =>
      var h := p.holders[i];
      After(p, Next(p.obj, AbandonRpc(h.id, h.fence)),
            Put(p.unswept, h.id, Contract.Abandon(Get(p.unswept, h.id), h.reference).1), wall, [])
    case Read(_, _) => p.(wall := wall)
    case Purge(now) => After(p, Next(p.obj, PurgeRpc(now)), Contract.Purge(p.unswept, now), wall, [])
    case Fire => After(p, Next(p.obj, Alarm(wall)), p.unswept, wall, [])
  }

  predicate ClockOk(now: int, wall: int, k: Skew) { wall + k.lo <= now <= wall + k.hi }

  /** The clocks of callers spread by no more than the grace. */
  predicate Admissible(p: Pair, q: Query, wall: int, k: Skew) {
    && Known(p, q) && p.wall <= wall
    && match q
       case Begin(_, o, graceMs) => ClockOk(o.now, wall, k) && k.hi - k.lo <= graceMs
       case Complete(_, _, now) => ClockOk(now, wall, k)
       case Read(_, now) => ClockOk(now, wall, k)
       case _ => true
  }

  predicate SameButFence(a: Record, b: Record) { a == b.(fence := a.fence) }

  predicate SameOutcome(a: BeginOutcome, b: BeginOutcome) {
    match (a, b)
    case (Acquired(_), Acquired(_)) => true
    case (Busy(x), Busy(y)) => x == y
    case (Replay(x), Replay(y)) => SameButFence(x, y)
    case (Mismatch(x), Mismatch(y)) => SameButFence(x, y)
    case _ => false
  }

  /** Both sides answer the same; begin and get apart from the fence, which restarts in the object. */
  ghost predicate Agree(p: Pair, q: Query)
    requires Known(p, q)
  {
    match q
    case Begin(op, o, _) =>
      SameOutcome(Contract.Begin(RecordOf(p.obj, op.id), op, o).0, Contract.Begin(Get(p.unswept, op.id), op, o).0)
    case Complete(i, pay, now) =>
      var h := p.holders[i];
      Contract.Complete(RecordOf(p.obj, h.id), h.fence, pay, now).0
      == Contract.Complete(Get(p.unswept, h.id), h.reference, pay, now).0
    case Abandon(i) =>
      var h := p.holders[i];
      Contract.Abandon(RecordOf(p.obj, h.id), h.fence).0 == Contract.Abandon(Get(p.unswept, h.id), h.reference).0
    case Read(id, now) =>
      var (a, b) := (Contract.Read(RecordOf(p.obj, id), now), Contract.Read(Get(p.unswept, id), now));
      a.Some? == b.Some? && (a.Some? ==> SameButFence(a.value, b.value))
    case _ => true
  }

  /** A row the object still has is the reference's; one it swept is expired for every clock from here on. */
  predicate RowSim(row: Option<Row>, due: Option<int>, unswept: Option<Record>, wall: int, lo: int) {
    if row.Some? then
      && due.Some? && unswept.Some?
      && SameButFence(RowToRecord(row.value), unswept.value)
      && row.value.expiresAt <= due.value + lo
    else unswept.Some? ==> unswept.value.expiresAt <= wall + lo
  }

  ghost predicate SimAt(p: Pair, k: Skew, id: Id) {
    RowSim(Get(p.obj.rows, id), Get(p.obj.sweep, id), Get(p.unswept, id), p.wall, k.lo)
  }

  /**
   While the object has the row, both sides have counted the same claims since the holder's. A holder whose row
   the object lost to a sweep is behind in the reference as soon as the object has a row again.
   */
  predicate HolderSim(row: Option<Row>, unswept: Option<Record>, h: Holder) {
    && (h.inObject ==>
          && h.inReference && row.Some? && unswept.Some?
          && unswept.value.fence - row.value.fence == h.reference - h.fence)
    && (h.inReference ==>
          && unswept.Some? && h.reference <= unswept.value.fence
          && (!h.inObject && row.Some? ==> h.reference < unswept.value.fence))
  }

  ghost predicate HolderAt(p: Pair, h: Holder) { HolderSim(Get(p.obj.rows, h.id), Get(p.unswept, h.id), h) }

  ghost predicate Sim(p: Pair, k: Skew) {
    && Wf(p.obj.rows) && Bookkept(p.obj)
    && (forall id :: SimAt(p, k, id))
    && forall i :: 0 <= i < |p.holders| ==> HolderAt(p, p.holders[i])
  }

  /** The holder's fence is the row's on one side only. */
  predicate Crossed(p: Pair, h: Holder) {
    && h.id in p.obj.rows && h.id in p.unswept
    && (h.fence == p.obj.rows[h.id].fence) != (h.reference == p.unswept[h.id].fence)
  }

  /**
   A holder of the object's current row is never crossed. One whose row was swept, while the reference still has
   it, is crossed exactly when the object's row has come to carry its fence.
   */
  lemma CrossedExact(p: Pair, k: Skew, i: nat)
    requires Sim(p, k) && i < |p.holders|
    ensures var h := p.holders[i];
            && (h.inObject ==> !Crossed(p, h))
            && (!h.inObject && h.inReference ==>
                  (Crossed(p, h) <==> h.id in p.obj.rows && p.obj.rows[h.id].fence == h.fence))
  {
    assert HolderAt(p, p.holders[i]);
  }

  /** The settling calls that the two sides treat differently although the object has a row. */
  predicate Diverges(p: Pair, q: Query)
    requires Known(p, q)
  {
    match q
    case Complete(i, _, now) => Crossed(p, p.holders[i]) && p.obj.rows[p.holders[i].id].expiresAt > now
    case Abandon(i) => Crossed(p, p.holders[i]) && p.obj.rows[p.holders[i].id].state == InFlight
    case _ => false
  }

  /** An abandon for which the object has no row. */
  predicate Rowless(p: Pair, q: Query)
    requires Known(p, q)
  {
    q.Abandon? && p.holders[q.h].id !in p.obj.rows
  }

  /** Begin and get never differ; complete and abandon, given a row, exactly when they diverge. */
  lemma AgreeNow(p: Pair, q: Query, wall: int, k: Skew)
    requires Sim(p, k) && Admissible(p, q, wall, k) && !Rowless(p, q)
    ensures Agree(p, q) <==> !Diverges(p, q)
  {
    match q
    case Begin(op, _, _) => assert SimAt(p, k, op.id);
    case Complete(i, _, _) => assert SimAt(p, k, p.holders[i].id);
    case Abandon(i) => assert SimAt(p, k, p.holders[i].id);
    case Read(id, _) => assert SimAt(p, k, id);
    case _ =>
  }

  /** When a complete can tell that rows are swept: never in the lifetime of its claim, and exactly when after it. */
  lemma CompleteTells(p: Pair, i: nat, pay: Payload, now: int, wall: int, k: Skew)
    requires Sim(p, k) && Admissible(p, Complete(i, pay, now), wall, k)
    ensures var h := p.holders[i];
            && (h.inObject ==> Agree(p, Complete(i, pay, now)))
            && (!h.inObject && h.inReference ==>
                  (Agree(p, Complete(i, pay, now)) <==>
                   !(h.id in p.obj.rows && p.obj.rows[h.id].expiresAt > now && p.obj.rows[h.id].fence == h.fence)))
  {
    AgreeNow(p, Complete(i, pay, now), wall, k);
    CrossedExact(p, k, i);
  }

  /** When an abandon can tell: it is also told apart by a claim still in flight whose row was swept. */
  lemma AbandonTellsExactly(p: Pair, i: nat, wall: int, k: Skew)
    requires Sim(p, k) && Admissible(p, Abandon(i), wall, k)
    ensures var h := p.holders[i];
            && (h.inObject ==> Agree(p, Abandon(i)))
            && (h.id !in p.obj.rows ==>
                  (Agree(p, Abandon(i)) <==> !(h.id in p.unswept && p.unswept[h.id].state == InFlight)))
            && (h.id in p.obj.rows && !h.inObject && h.inReference ==>
                  (Agree(p, Abandon(i)) <==>
                   !(p.obj.rows[h.id].state == InFlight && p.obj.rows[h.id].fence == h.fence)))
  {
    assert SimAt(p, k, p.holders[i].id) && HolderAt(p, p.holders[i]);
    if !Rowless(p, Abandon(i)) { AgreeNow(p, Abandon(i), wall, k); }
    CrossedExact(p, k, i);
  }

  // ----- the simulation

  /** The row of a begin; a claim's row expires no later than its sweep entry for every clock within the spread. */
  lemma RowSimBegin(p: Pair, op: Operation, o: BeginOptions, graceMs: int, wall: int, k: Skew)
    requires Sim(p, k) && Admissible(p, Begin(op, o, graceMs), wall, k)
    ensures SimAt(Both(p, Begin(op, o, graceMs), wall), k, op.id)
  {
    assert SimAt(p, k, op.id);
    BeginContractOn(p.obj.rows, op, o);
  }

  lemma BeginContractOn(t: Table, op: Operation, o: BeginOptions)
    ensures var (t', fence) := Exec(t, BeginStmt(op, o));
            if Contract.Claimable(Get(Abs(t), op.id), op.fingerprint, o.now) then
              fence.Some? && op.id in t' && fence.value == t'[op.id].fence
              && t'[op.id].fence == (if op.id in t then t[op.id].fence else 0) + 1
              && RowToRecord(t'[op.id]).(fence := 1, id := op.id) == Contract.FreshRecord(op, o, 1)
            else fence.None? && t' == t
  {
  }

  lemma RowSimComplete(p: Pair, i: nat, pay: Payload, now: int, wall: int, k: Skew)
    requires Sim(p, k) && Admissible(p, Complete(i, pay, now), wall, k) && !Diverges(p, Complete(i, pay, now))
    ensures SimAt(Both(p, Complete(i, pay, now), wall), k, p.holders[i].id)
  {
    var h := p.holders[i];
    assert SimAt(p, k, h.id);
    if h.id in p.obj.rows && CompleteGuard(p.obj.rows[h.id], h.fence, now) {
      CompletedReadsBack(p.obj.rows[h.id], pay);
    }
  }

  /** Nothing was claimed on the holder's id. */
  lemma HolderKept(p: Pair, p': Pair, h: Holder)
    requires HolderAt(p, h)
    requires h.id in p'.obj.rows ==> h.id in p.obj.rows && p'.obj.rows[h.id].fence == p.obj.rows[h.id].fence
    requires h.id in p'.unswept ==> h.id in p.unswept && p'.unswept[h.id].fence == p.unswept[h.id].fence
    requires h.id in p'.obj.rows ==> h.id in p'.unswept
    ensures HolderAt(p', Aged(h, Get(p'.obj.rows, h.id), Get(p'.unswept, h.id)))
  {
  }

  lemma HolderBegun(p: Pair, op: Operation, o: BeginOptions, graceMs: int, wall: int, k: Skew, h: Holder)
    requires Sim(p, k) && Admissible(p, Begin(op, o, graceMs), wall, k) && HolderAt(p, h)
    ensures var p' := Both(p, Begin(op, o, graceMs), wall);
            HolderAt(p', Aged(h, Get(p'.obj.rows, h.id), Get(p'.unswept, h.id)))
  {
    assert SimAt(p, k, op.id);
    BeginContractOn(p.obj.rows, op, o);
  }

  lemma HolderIssued(p: Pair, op: Operation, o: BeginOptions, graceMs: int, wall: int, k: Skew)
    requires Sim(p, k) && Admissible(p, Begin(op, o, graceMs), wall, k)
    ensures var p' := Both(p, Begin(op, o, graceMs), wall);
            forall i :: |p.holders| <= i < |p'.holders| ==> HolderAt(p', p'.holders[i])
  {
    assert SimAt(p, k, op.id);
    BeginContractOn(p.obj.rows, op, o);
  }

  lemma SimBegin(p: Pair, op: Operation, o: BeginOptions, graceMs: int, wall: int, k: Skew)
    requires Sim(p, k) && Admissible(p, Begin(op, o, graceMs), wall, k)
    ensures Sim(Both(p, Begin(op, o, graceMs), wall), k)
  {
    var p' := Both(p, Begin(op, o, graceMs), wall);
    BookkeptStep(p.obj, BeginRpc(op, o, graceMs, wall));
    WfExec(p.obj.rows, BeginStmt(op, o));
    RowSimBegin(p, op, o, graceMs, wall, k);
    forall id ensures SimAt(p', k, id) { assert SimAt(p, k, id); }
    HolderIssued(p, op, o, graceMs, wall, k);
    forall i | 0 <= i < |p.holders| ensures HolderAt(p', p'.holders[i]) {
      HolderBegun(p, op, o, graceMs, wall, k, p.holders[i]);
    }
  }

  /** Only a begin changes the fence of a row that stays. */
  lemma FenceKept(p: Pair, q: Query, wall: int, id: Id)
    requires Known(p, q) && !q.Begin?
    ensures var p' := Both(p, q, wall);
            && (id in p'.obj.rows ==> id in p.obj.rows && p'.obj.rows[id].fence == p.obj.rows[id].fence)
            && (id in p'.unswept ==> id in p.unswept && p'.unswept[id].fence == p.unswept[id].fence)
  {
  }

  /** After a query that claims nothing, holders stay related if rows do. */
  lemma HoldersKept(p: Pair, q: Query, wall: int, k: Skew)
    requires Sim(p, k) && Admissible(p, q, wall, k) && !q.Begin?
    requires forall id :: SimAt(Both(p, q, wall), k, id)
    ensures var p' := Both(p, q, wall); forall i :: 0 <= i < |p'.holders| ==> HolderAt(p', p'.holders[i])
  {
    var p' := Both(p, q, wall);
    if !q.Read? {
      forall i | 0 <= i < |p'.holders| ensures HolderAt(p', p'.holders[i]) {
        assert SimAt(p', k, p.holders[i].id);
        FenceKept(p, q, wall, p.holders[i].id);
        HolderKept(p, p', p.holders[i]);
      }
    }
  }

  lemma SimComplete(p: Pair, i: nat, pay: Payload, now: int, wall: int, k: Skew)
    requires Sim(p, k) && Admissible(p, Complete(i, pay, now), wall, k) && !Diverges(p, Complete(i, pay, now))
    ensures Sim(Both(p, Complete(i, pay, now), wall), k)
  {
    var h, p' := p.holders[i], Both(p, Complete(i, pay, now), wall);
    BookkeptStep(p.obj, CompleteRpc(h.id, h.fence, pay, now));
    WfExec(p.obj.rows, CompleteStmt(h.id, h.fence, now, pay));
    RowSimComplete(p, i, pay, now, wall, k);
    forall j ensures SimAt(p', k, j) { assert SimAt(p, k, j); }
    HoldersKept(p, Complete(i, pay, now), wall, k);
  }

  lemma RowSimAbandon(p: Pair, i: nat, wall: int, k: Skew)
    requires Sim(p, k) && Admissible(p, Abandon(i), wall, k) && !Diverges(p, Abandon(i))
    ensures SimAt(Both(p, Abandon(i), wall), k, p.holders[i].id)
  {
    assert SimAt(p, k, p.holders[i].id);
  }

  lemma SimAbandon(p: Pair, i: nat, wall: int, k: Skew)
    requires Sim(p, k) && Admissible(p, Abandon(i), wall, k) && !Diverges(p, Abandon(i))
    ensures Sim(Both(p, Abandon(i), wall), k)
  {
    var h, p' := p.holders[i], Both(p, Abandon(i), wall);
    BookkeptStep(p.obj, AbandonRpc(h.id, h.fence));
    WfExec(p.obj.rows, AbandonStmt(h.id, h.fence));
    RowSimAbandon(p, i, wall, k);
    forall j ensures SimAt(p', k, j) { assert SimAt(p, k, j); }
    HoldersKept(p, Abandon(i), wall, k);
  }

  lemma SimPurge(p: Pair, now: int, wall: int, k: Skew)
    requires Sim(p, k) && Admissible(p, Purge(now), wall, k)
    ensures Sim(Both(p, Purge(now), wall), k)
  {
    var p' := Both(p, Purge(now), wall);
    BookkeptStep(p.obj, PurgeRpc(now));
    WfExec(p.obj.rows, PurgeStmt(now));
    forall j ensures SimAt(p', k, j) { assert SimAt(p, k, j); }
    HoldersKept(p, Purge(now), wall, k);
  }

  lemma SimFire(p: Pair, wall: int, k: Skew)
    requires Sim(p, k) && Admissible(p, Fire, wall, k)
    ensures Sim(Both(p, Fire, wall), k)
  {
    var p' := Both(p, Fire, wall);
    BookkeptStep(p.obj, Alarm(wall));
    forall j ensures SimAt(p', k, j) { assert SimAt(p, k, j); }
    HoldersKept(p, Fire, wall, k);
  }

  lemma SimStep(p: Pair, q: Query, wall: int, k: Skew)
    requires Sim(p, k) && Admissible(p, q, wall, k) && !Diverges(p, q)
    ensures Sim(Both(p, q, wall), k)
  {
    match q
    case Begin(op, o, graceMs) => SimBegin(p, op, o, graceMs, wall, k);
    case Complete(i, pay, now) => SimComplete(p, i, pay, now, wall, k);
    case Read(_, _) =>
      var p' := Both(p, q, wall);
      forall j ensures SimAt(p', k, j) { assert SimAt(p, k, j); }
      forall i | 0 <= i < |p'.holders| ensures HolderAt(p', p'.holders[i]) { assert HolderAt(p, p.holders[i]); }
    case Abandon(i) => SimAbandon(p, i, wall, k);
    case Purge(now) => SimPurge(p, now, wall, k);
    case Fire => SimFire(p, wall, k);
  }

  // ----- whole runs

  ghost predicate AdmissibleRun(p: Pair, qs: seq<(Query, int)>, k: Skew)
    decreases |qs|
  {
    qs == [] || (Admissible(p, qs[0].0, qs[0].1, k) && AdmissibleRun(Both(p, qs[0].0, qs[0].1), qs[1..], k))
  }

  /** All answers are the same, abandons without a row left aside (AbandonTellsExactly says when those are). */
  ghost predicate AnswersRun(p: Pair, qs: seq<(Query, int)>, k: Skew)
    requires AdmissibleRun(p, qs, k)
    decreases |qs|
  {
    qs == [] || ((Rowless(p, qs[0].0) || Agree(p, qs[0].0)) && AnswersRun(Both(p, qs[0].0, qs[0].1), qs[1..], k))
  }

  ghost predicate ConvergesRun(p: Pair, qs: seq<(Query, int)>, k: Skew)
    requires AdmissibleRun(p, qs, k)
    decreases |qs|
  {
    qs == [] || (!Diverges(p, qs[0].0) && ConvergesRun(Both(p, qs[0].0, qs[0].1), qs[1..], k))
  }

  lemma {:induction false} AnswersExact(p: Pair, qs: seq<(Query, int)>, k: Skew)
    requires Sim(p, k) && AdmissibleRun(p, qs, k)
    ensures AnswersRun(p, qs, k) <==> ConvergesRun(p, qs, k)
    decreases |qs|
  {
    if qs != [] {
      var (q, wall) := qs[0];
      if !Rowless(p, q) { AgreeNow(p, q, wall, k); }
      if !Diverges(p, q) {
        SimStep(p, q, wall, k);
        AnswersExact(Both(p, q, wall), qs[1..], k);
      }
    }
  }

  function Start(wall: int): Pair { Pair(EMPTY, map[], wall, []) }

  /**
   From an empty object, over every run with alarms firing anywhere: the sweep is invisible exactly as long as no
   settling call meets, with its own fence, a row of another lifetime.
   */
  lemma SweepExact(wall: int, qs: seq<(Query, int)>, k: Skew)
    requires AdmissibleRun(Start(wall), qs, k)
    ensures AnswersRun(Start(wall), qs, k) <==> ConvergesRun(Start(wall), qs, k)
  {
    AnswersExact(Start(wall), qs, k);
  }

  /** Every settling call is made in the lifetime of its claim, or finds no row. */
  ghost predicate PromptRun(p: Pair, qs: seq<(Query, int)>, k: Skew)
    requires AdmissibleRun(p, qs, k)
    decreases |qs|
  {
    qs == [] ||
    (var q := qs[0].0;
     (q.Complete? ==> p.holders[q.h].inObject || p.holders[q.h].id !in p.obj.rows)
     && (q.Abandon? ==> p.holders[q.h].inObject || p.holders[q.h].id !in p.obj.rows)
     && PromptRun(Both(p, q, qs[0].1), qs[1..], k))
  }

  lemma {:induction false} PromptConverges(p: Pair, qs: seq<(Query, int)>, k: Skew)
    requires Sim(p, k) && AdmissibleRun(p, qs, k) && PromptRun(p, qs, k)
    ensures ConvergesRun(p, qs, k)
    decreases |qs|
  {
    if qs != [] {
      var (q, wall) := qs[0];
      if q.Complete? || q.Abandon? { CrossedExact(p, k, q.h); }
      SimStep(p, q, wall, k);
      PromptConverges(Both(p, q, wall), qs[1..], k);
    }
  }

  /** In particular it is invisible to begin, get and complete while holders settle within their row's lifetime. */
  lemma SweepInvisible(wall: int, qs: seq<(Query, int)>, k: Skew)
    requires AdmissibleRun(Start(wall), qs, k) && PromptRun(Start(wall), qs, k)
    ensures AnswersRun(Start(wall), qs, k)
  {
    PromptConverges(Start(wall), qs, k);
    SweepExact(wall, qs, k);
  }

  /** A claim on an object without rows, beside a reference whose row, if any, has expired. */
  lemma ClaimsFirst(p: Pair, op: Operation, o: BeginOptions, graceMs: int, wall: int, was: int)
    requires p.obj.rows == map[] && p.obj.sweep == map[]
    requires if op.id !in p.unswept then was == 0
             else p.unswept[op.id].expiresAt <= o.now && p.unswept[op.id].fence == was
    ensures var p' := Both(p, Begin(op, o, graceMs), wall);
            && p'.wall == wall
            && p'.obj.rows == map[op.id := NewRow(op, o, 1)]
            && p'.obj.sweep == map[op.id := wall + o.ttlMs + graceMs]
            && p'.unswept == p.unswept[op.id := Contract.FreshRecord(op, o, was + 1)]
            && |p'.holders| == |p.holders| + 1
            && (forall i ::
                  0 <= i < |p.holders| && p.holders[i].id == op.id && !p.holders[i].inObject && p.holders[i].inReference
                  ==> p'.holders[i] == p.holders[i])
            && p'.holders[|p.holders|] == Holder(op.id, 1, was + 1, true, true)
  {
  }

  lemma SweepsOnly(p: Pair, row: Row, wall: int)
    requires p.obj.rows == map[row.id := row] && p.obj.sweep == map[row.id := wall]
    requires p.holders == [Holder(row.id, 1, 1, true, true)] && row.id in p.unswept
    ensures var p' := Both(p, Fire, wall);
            && p'.wall == wall && p'.obj.rows == map[] && p'.obj.sweep == map[] && p'.unswept == p.unswept
            && p'.holders == [Holder(row.id, 1, 1, false, true)]
  {
    assert Due(p.obj, wall) == {row.id};
  }

  lemma StartSim(wall: int, k: Skew)
    ensures Sim(Start(wall), k)
  {
  }

  // A claim at time 0, the alarm when it falls due, and the next claim: every clock is the wall clock.

  datatype Times = Times(leaseMs: int, ttlMs: int, graceMs: int)
  {
    function Due(): int { ttlMs + graceMs }

    function At(now: int): BeginOptions { BeginOptions(leaseMs, ttlMs, now) }
  }

  const NO_SKEW := Skew(0, 0)

  ghost predicate Claimed(p: Pair, op: Operation, w: Times) {
    && Sim(p, NO_SKEW) && p.wall == 0
    && p.obj.rows == map[op.id := NewRow(op, w.At(0), 1)] && p.obj.sweep == map[op.id := w.Due()]
    && p.unswept == map[op.id := Contract.FreshRecord(op, w.At(0), 1)]
    && p.holders == [Holder(op.id, 1, 1, true, true)]
  }

  ghost predicate Swept(p: Pair, op: Operation, w: Times) {
    && Sim(p, NO_SKEW) && p.wall == w.Due() && p.obj.rows == map[] && p.obj.sweep == map[]
    && p.unswept == map[op.id := Contract.FreshRecord(op, w.At(0), 1)]
    && p.holders == [Holder(op.id, 1, 1, false, true)]
  }

  ghost predicate Reclaimed(p: Pair, op: Operation, w: Times) {
    && Sim(p, NO_SKEW) && p.wall == w.Due()
    && p.obj.rows == map[op.id := NewRow(op, w.At(w.Due()), 1)]
    && p.unswept == map[op.id := Contract.FreshRecord(op, w.At(w.Due()), 2)]
    && p.holders == [Holder(op.id, 1, 1, false, true), Holder(op.id, 1, 2, true, true)]
  }

  lemma ReachClaimed(op: Operation, w: Times)
    requires w.graceMs >= 0
    ensures Claimed(Both(Start(0), Begin(op, w.At(0), w.graceMs), 0), op, w)
  {
    StartSim(0, NO_SKEW);
    ClaimsFirst(Start(0), op, w.At(0), w.graceMs, 0, 0);
    SimStep(Start(0), Begin(op, w.At(0), w.graceMs), 0, NO_SKEW);
  }

  lemma ReachSwept(p: Pair, op: Operation, w: Times)
    requires Claimed(p, op, w) && w.Due() >= 0
    ensures Swept(Both(p, Fire, w.Due()), op, w)
  {
    SweepsOnly(p, NewRow(op, w.At(0), 1), w.Due());
    SimStep(p, Fire, w.Due(), NO_SKEW);
  }

  lemma ReachReclaimed(p: Pair, op: Operation, w: Times)
    requires Swept(p, op, w) && w.graceMs >= 0
    ensures Reclaimed(Both(p, Begin(op, w.At(w.Due()), w.graceMs), w.Due()), op, w)
  {
    ClaimsFirst(p, op, w.At(w.Due()), w.graceMs, w.Due(), 1);
    SimStep(p, Begin(op, w.At(w.Due()), w.graceMs), w.Due(), NO_SKEW);
  }

  /** The complete of the holder whose row was swept is told `ok` and lands in the next claim's row. */
  lemma ReclaimedHit(p: Pair, op: Operation, w: Times, pay: Payload)
    requires Reclaimed(p, op, w) && w.ttlMs > 0
    ensures var q := Complete(0, pay, w.Due());
            && Admissible(p, q, w.Due(), NO_SKEW)
            && Contract.Complete(RecordOf(p.obj, op.id), p.holders[0].fence, pay, q.now).0 == Ok
            && Contract.Complete(Get(p.unswept, op.id), p.holders[0].reference, pay, q.now).0 == StaleFence
            && !Agree(p, q)
            && op.id in Both(p, q, w.Due()).obj.rows && Both(p, q, w.Due()).obj.rows[op.id].state == Completed
  {
  }

  /**
   The sweep is visible to a holder whose row was swept, even with all clocks equal: its complete is told `ok` and
   lands in the row of the next claim, where without the sweep it is stale.
   */
  lemma SweptHolderHits(op: Operation, w: Times, pay: Payload)
    requires w.ttlMs > 0 && w.graceMs >= 0
    ensures exists p1, p2, p3 ::
              && p1 == Both(Start(0), Begin(op, w.At(0), w.graceMs), 0)
              && p2 == Both(p1, Fire, w.Due())
              && p3 == Both(p2, Begin(op, w.At(w.Due()), w.graceMs), w.Due())
              && Reclaimed(p3, op, w)
              && Contract.Complete(RecordOf(p3.obj, op.id), p3.holders[0].fence, pay, w.Due()).0 == Ok
              && Contract.Complete(Get(p3.unswept, op.id), p3.holders[0].reference, pay, w.Due()).0 == StaleFence
  {
    var p1 := Both(Start(0), Begin(op, w.At(0), w.graceMs), 0);
    ReachClaimed(op, w);
    var p2 := Both(p1, Fire, w.Due());
    ReachSwept(p1, op, w);
    var p3 := Both(p2, Begin(op, w.At(w.Due()), w.graceMs), w.Due());
    ReachReclaimed(p2, op, w);
    ReclaimedHit(p3, op, w, pay);
  }

  /**
   How much grace is enough, exactly. A record completed under a claim taken at clock `a.now` and wall `wa` is
   swept when its entry falls due; the duplicate that arrives then on clock `b.now` is still answered as
   without the sweep if and only if its clock is behind the claimant's by at most the grace.
   */
  lemma GraceExact(op: Operation, a: BeginOptions, wa: int, graceMs: int, pay: Payload, now: int, b: BeginOptions)
    requires now < a.now + a.ttlMs
    ensures var s := Next(Next(EMPTY, BeginRpc(op, a, graceMs, wa)), CompleteRpc(op.id, 1, pay, now));
            var due := wa + a.ttlMs + graceMs;
            var p := Pair(Next(s, Alarm(due)), Abs(s.rows), due, []);
            && op.id in s.rows && op.id !in p.obj.rows
            && (Agree(p, Begin(op, b, graceMs)) <==> b.now - due >= (a.now - wa) - graceMs)
  {
    var s1 := Next(EMPTY, BeginRpc(op, a, graceMs, wa));
    assert s1.rows == map[op.id := NewRow(op, a, 1)];
    var s := Next(s1, CompleteRpc(op.id, 1, pay, now));
    assert s.rows == map[op.id := CompletedRow(NewRow(op, a, 1), pay)];
    assert s.sweep == map[op.id := wa + a.ttlMs + graceMs];
  }

  /** An abandon does tell: the swept row of an expired claim is gone, the unswept one is still deleted. */
  lemma AbandonTells(op: Operation, a: BeginOptions, wa: int, graceMs: int)
    ensures var s := Next(EMPTY, BeginRpc(op, a, graceMs, wa));
            var t := Next(s, Alarm(wa + a.ttlMs + graceMs));
            && Contract.Abandon(RecordOf(t, op.id), 1).0 == NotFound
            && Contract.Abandon(RecordOf(s, op.id), 1).0 == Ok
  {
  }

  // ----- the object itself

  class IdempotencyObject {
    var rows: Table
    var sweep: map<Id, int>
    var alarm: Option<int>

    constructor ()
      ensures State() == EMPTY
    { rows, sweep, alarm := map[], map[], None; }

    ghost function State(): Obj
      reads this
    { Obj(rows, sweep, alarm) }

    method SqlExec(s: Statement) returns (fence: Option<int>)
      modifies this`rows
      ensures (rows, fence) == Exec(old(rows), s)
    {
      var (t, f) := Exec(rows, s);
      rows, fence := t, f;
    }

    method ScheduleSweep(id: Id, expiresAt: int, now: int, graceMs: int, wallNow: int)
      modifies this`sweep, this`alarm
      ensures State() == Schedule(old(State()), id, wallNow + (expiresAt - now) + graceMs)
    {
      var wall := wallNow + (expiresAt - now) + graceMs;
      sweep := sweep[id := wall];
      if alarm.None? || alarm.value > wall { alarm := Some(wall); }
    }

    /** Running alone, a begin settles on its first try, with the reference store's answer. */
    method Begin(op: Operation, o: BeginOptions, graceMs: int, wall: int)
      returns (out: Option<BeginOutcome>, tries: nat)
      requires Wf(rows)
      modifies this
      ensures Wf(rows) && State() == Next(old(State()), BeginRpc(op, o, graceMs, wall))
      ensures tries == 1 && out == Some(Contract.Begin(Get(Abs(old(rows)), op.id), op, o).0)
    {
      out, tries := None, 0;
      while out.None? && tries < 3
        invariant out.None? ==> tries == 0 && State() == old(State())
        invariant out.Some? ==>
                    && tries == 1 && out == Some(Contract.Begin(Get(Abs(old(rows)), op.id), op, o).0)
                    && State() == Next(old(State()), BeginRpc(op, o, graceMs, wall))
      {
        tries := tries + 1;
        BeginExact(rows, op, o);
        ClassifyBeginExact(rows, op, o);
        var claimed := SqlExec(BeginStmt(op, o));
        if claimed.Some? {
          ScheduleSweep(op.id, o.now + o.ttlMs, o.now, graceMs, wall);
          out := Some(Acquired(claimed.value));
        } else {
          out := ClassifyBegin(Get(rows, op.id), op, o.now);
        }
      }
      WfExec(old(rows), BeginStmt(op, o));
    }

    method Complete(op: Operation, fence: int, p: Payload, now: int) returns (st: CompleteStatus)
      requires Wf(rows)
      modifies this
      ensures Wf(rows) && State() == Next(old(State()), CompleteRpc(op.id, fence, p, now))
      ensures st == Contract.Complete(Get(Abs(old(rows)), op.id), fence, p, now).0
    {
      CompleteExact(rows, op.id, fence, p, now);
      WfExec(rows, CompleteStmt(op.id, fence, now, p));
      var updated := SqlExec(CompleteStmt(op.id, fence, now, p));
      if updated.Some? { return Ok; }
      return ClassifyComplete(Get(rows, op.id), fence, now);
    }

    method Abandon(op: Operation, fence: int) returns (st: CompleteStatus)
      requires Wf(rows)
      modifies this
      ensures Wf(rows) && State() == Next(old(State()), AbandonRpc(op.id, fence))
      ensures st == Contract.Abandon(Get(Abs(old(rows)), op.id), fence).0
    {
      AbandonExact(rows, op.id, fence);
      WfExec(rows, AbandonStmt(op.id, fence));
      var deleted := SqlExec(AbandonStmt(op.id, fence));
      if deleted.Some? {
        sweep := sweep - {op.id};
        return Ok;
      }
      return ClassifyAbandon(Get(rows, op.id), fence);
    }

    method Read(id: Id, now: int) returns (r: Option<Record>)
      ensures r == Contract.Read(RecordOf(State(), id), now)
    {
      if id !in rows || rows[id].expiresAt <= now { return None; }
      r := Some(RowToRecord(rows[id]));
    }

    method Purge(now: int) returns (removed: nat)
      modifies this
      ensures State() == Next(old(State()), PurgeRpc(now))
      ensures removed == |old(rows)| - |rows|
    {
      var before := rows;
      var _ := SqlExec(PurgeStmt(now));
      assert rows.Keys <= before.Keys;
      Smaller(rows.Keys, before.Keys);
      removed := |before.Keys| - |rows.Keys|;
      assert |before| == |before.Keys| && |rows| == |rows.Keys|;
      if removed > 0 { sweep := map k | k in sweep && k in rows :: sweep[k]; }
    }

    lemma Smaller(a: set<Id>, b: set<Id>)
      requires a <= b
      ensures |a| <= |b| && (|a| == |b| <==> a == b)
    {
      assert |b| == |a| + |b - a| by { assert b == a + (b - a); }
      if |a| == |b| { assert b - a == {}; }
    }

    method Remove(id: Id)
      modifies this
      ensures State() == Next(old(State()), RemoveRpc(id))
    {
      rows := rows - {id};
      sweep := sweep - {id};
    }

    /** The pending alarm has fired; it is set again if anything is left to sweep. */
    method FireAlarm(wall: int)
      modifies this
      ensures State() == Next(old(State()), Alarm(wall))
    {
      var due := Due(Obj(rows, sweep, alarm), wall);
      alarm := None;
      var todo := due;
      while todo != {}
        invariant todo <= due
        invariant rows == old(rows) - (due - todo) && sweep == old(sweep) - (due - todo)
        invariant alarm == None
      {
        var k :| k in todo;
        todo := todo - {k};
        rows := rows - {k};
        sweep := sweep - {k};
        assert due - todo == (due - (todo + {k})) + {k};
      }
      assert due - todo == due;
      var next := MinExpiry();
      if next.Some? { alarm := next; }
    }

    /** SELECT MIN(expires_wall): null on an empty table. */
    method MinExpiry() returns (at: Option<int>)
      ensures at == if sweep == map[] then None else Some(Least(sweep.Values))
    {
      at := None;
      var left := sweep.Keys;
      while left != {}
        invariant left <= sweep.Keys
        invariant at.None? <==> left == sweep.Keys
        invariant at.Some? ==> at.value in sweep.Values
                               && forall k :: k in sweep && k !in left ==> at.value <= sweep[k]
      {
        var k :| k in left;
        left := left - {k};
        if at.None? || sweep[k] < at.value { at := Some(sweep[k]); }
      }
      if at.Some? {
        forall x | x in sweep.Values ensures at.value <= x {
          var k :| k in sweep && sweep[k] == x;
        }
      }
    }
  }
}
