/**
 The statements of packages/stores/src/sql.ts, each one atomic on the shared table, and what they do to the
 table read as records.
 */
module Sql {
  import opened Types
  import opened Rows
  import Contract

  type Table = map<Id, Row>

  /** The statements that may change the table; SELECT only reads it. */
  datatype Statement =
    | BeginStmt(op: Operation, o: BeginOptions)
    | CompleteStmt(id: Id, fence: int, now: int, payload: Payload)
    | AbandonStmt(id: Id, fence: int)
    | PurgeStmt(now: int)
    | RemoveStmt(id: Id)

  /** WHERE of the ON CONFLICT branch of BEGIN_SQL. */
  predicate BeginGuard(r: Row, op: Operation, now: int) {
    r.expiresAt <= now || (r.fingerprint == op.fingerprint && r.state == InFlight && r.leaseUntil <= now)
  }

  predicate CompleteGuard(r: Row, fence: int, now: int) {
    r.fence == fence && r.expiresAt > now && r.state == InFlight
  }

  predicate AbandonGuard(r: Row, fence: int) { r.fence == fence && r.state == InFlight }

  /** The table after the statement, and the RETURNING fence when a row was written or deleted. */
  function Exec(t: Table, s: Statement): (Table, Option<int>) {
    match s
    case BeginStmt(op, o) =>
      if op.id !in t then (t[op.id := NewRow(op, o, 1)], Some(1))
      else if BeginGuard(t[op.id], op, o.now) then
        var row := t[op.id].(fingerprint := op.fingerprint, state := InFlight, fence := t[op.id].fence + 1,
                             leaseUntil := o.now + o.leaseMs, createdAt := o.now, expiresAt := o.now + o.ttlMs,
                             meta := None, body := None, omitted := 0);
        (t[op.id := row], Some(row.fence))
      else (t, None)
    case CompleteStmt(id, fence, now, p) =>
      if id in t && CompleteGuard(t[id], fence, now) then (t[id := CompletedRow(t[id], p)], Some(fence)) else (t, None)
    case AbandonStmt(id, fence) =>
      if id in t && AbandonGuard(t[id], fence) then (t - {id}, Some(fence)) else (t, None)
    case PurgeStmt(now) => (map k | k in t && t[k].expiresAt > now :: t[k], None)
    case RemoveStmt(id) => (t - {id}, None)
  }

  function ExecAll(t: Table, ss: seq<Statement>): Table
    decreases |ss|
  {
    if ss == [] then t else ExecAll(Exec(t, ss[0]).0, ss[1..])
  }

  lemma {:induction false} ExecAllAppend(t: Table, a: seq<Statement>, b: seq<Statement>)
    ensures ExecAll(t, a + b) == ExecAll(ExecAll(t, a), b)
    decreases |a|
  {
    if a == [] {
      assert a + b == b;
    } else {
      assert (a + b)[1..] == a[1..] + b;
      ExecAllAppend(Exec(t, a[0]).0, a[1..], b);
    }
  }

  ghost predicate Wf(t: Table) { forall k :: k in t ==> WellFormed(t[k]) && t[k].id == k }

  lemma WfExec(t: Table, s: Statement)
    requires Wf(t)
    ensures Wf(Exec(t, s).0)
  {
  }

  lemma {:induction false} WfExecAll(t: Table, ss: seq<Statement>)
    requires Wf(t)
    ensures Wf(ExecAll(t, ss))
    decreases |ss|
  {
    if ss != [] {
      WfExec(t, ss[0]);
      WfExecAll(Exec(t, ss[0]).0, ss[1..]);
    }
  }

  /** The table as the reference store's records. */
  function Abs(t: Table): map<Id, Record> { map k | k in t :: RowToRecord(t[k]) }

  /** BEGIN_SQL writes a row exactly when the reference store acquires, and then the same one. */
  lemma BeginExact(t: Table, op: Operation, o: BeginOptions)
    requires Wf(t)
    ensures var (out, row) := Contract.Begin(Get(Abs(t), op.id), op, o);
            var (t', fence) := Exec(t, BeginStmt(op, o));
            && (fence.Some? <==> out.Acquired?)
            && (fence.Some? ==> out.fence == fence.value)
            && Abs(t') == Put(Abs(t), op.id, row)
  {
    var t' := Exec(t, BeginStmt(op, o)).0;
    var row := Contract.Begin(Get(Abs(t), op.id), op, o).1;
    assert forall k :: k in Abs(t') ==> Abs(t')[k] == Put(Abs(t), op.id, row)[k];
  }

  /** COMPLETE_SQL writes exactly when the reference store does, and then the same row. */
  lemma CompleteExact(t: Table, id: Id, fence: int, p: Payload, now: int)
    requires Wf(t)
    ensures var (st, row) := Contract.Complete(Get(Abs(t), id), fence, p, now);
            var (t', written) := Exec(t, CompleteStmt(id, fence, now, p));
            && (written.Some? <==> row != Get(Abs(t), id))
            && (written.Some? ==> st == Ok)
            && Abs(t') == Put(Abs(t), id, row)
  {
    var (t', written) := Exec(t, CompleteStmt(id, fence, now, p));
    if written.Some? { CompletedReadsBack(t[id], p); }
    assert Abs(t') == Put(Abs(t), id, Contract.Complete(Get(Abs(t), id), fence, p, now).1);
  }

  lemma AbandonExact(t: Table, id: Id, fence: int)
    requires Wf(t)
    ensures var (st, row) := Contract.Abandon(Get(Abs(t), id), fence);
            var (t', deleted) := Exec(t, AbandonStmt(id, fence));
            && (deleted.Some? <==> st == Ok)
            && Abs(t') == Put(Abs(t), id, row)
  {
    var (t', _) := Exec(t, AbandonStmt(id, fence));
    assert Abs(t') == Put(Abs(t), id, Contract.Abandon(Get(Abs(t), id), fence).1);
  }

  // ----- classification of a refused write from the row a SELECT returned

  /** None means: try again. */
  function ClassifyBegin(row: Option<Row>, op: Operation, now: int): Option<BeginOutcome> {
    if row.None? then None
    else if row.value.expiresAt <= now then None
    else if row.value.fingerprint != op.fingerprint then Some(Mismatch(RowToRecord(row.value)))
    else if row.value.state == Completed then Some(Replay(RowToRecord(row.value)))
    else if row.value.leaseUntil <= now then None
    else Some(Busy(row.value.leaseUntil))
  }

  function ClassifyComplete(row: Option<Row>, fence: int, now: int): CompleteStatus {
    if row.None? then NotFound
    else if row.value.expiresAt <= now then NotFound
    else if row.value.fence != fence then StaleFence
    else Ok
  }

  function ClassifyAbandon(row: Option<Row>, fence: int): CompleteStatus {
    if row.None? then NotFound
    else if row.value.state != InFlight then NotFound
    else if row.value.fence == fence then NotFound
    else StaleFence
  }

  /** A classified begin is a reference begin on the row it read; it tries again exactly when it could claim. */
  lemma ClassifyBeginExact(t: Table, op: Operation, o: BeginOptions)
    ensures var (out, row) := Contract.Begin(Get(Abs(t), op.id), op, o);
            var c := ClassifyBegin(Get(t, op.id), op, o.now);
            && (c.None? <==> Exec(t, BeginStmt(op, o)).1.Some?)
            && (c.Some? ==> c.value == out && row == Get(Abs(t), op.id))
  {
  }

  /** The SELECT finds a row the refused write would by now have applied to. */
  predicate TornComplete(row: Option<Row>, fence: int, now: int) {
    row.Some? && CompleteGuard(row.value, fence, now)
  }

  predicate TornAbandon(row: Option<Row>, fence: int) {
    row.Some? && AbandonGuard(row.value, fence)
  }

  /** The classified answer (which writes nothing) is a reference complete at the SELECT exactly when not torn. */
  lemma ClassifyCompleteExact(t: Table, id: Id, fence: int, p: Payload, now: int)
    requires Wf(t)
    ensures Contract.Complete(Get(Abs(t), id), fence, p, now)
            == (ClassifyComplete(Get(t, id), fence, now), Get(Abs(t), id))
            <==> !TornComplete(Get(t, id), fence, now)
  {
    CompleteExact(t, id, fence, p, now);
  }

  lemma ClassifyAbandonExact(t: Table, id: Id, fence: int)
    requires Wf(t)
    ensures Contract.Abandon(Get(Abs(t), id), fence) == (ClassifyAbandon(Get(t, id), fence), Get(Abs(t), id))
            <==> !TornAbandon(Get(t, id), fence)
  {
  }

  // ----- a refusal stays one for the rest of the row's lifetime, because fences only grow

  /** Refused at a row whose lifetime issued this fence. */
  predicate CompleteRefused(t: Table, id: Id, fence: int, now: int) {
    id in t && fence <= t[id].fence && !CompleteGuard(t[id], fence, now)
  }

  predicate AbandonRefused(t: Table, id: Id, fence: int) {
    id in t && fence <= t[id].fence && !AbandonGuard(t[id], fence)
  }

  lemma RefusalStands(t: Table, s: Statement, id: Id, fence: int, now: int)
    requires id in Exec(t, s).0
    ensures CompleteRefused(t, id, fence, now) ==> CompleteRefused(Exec(t, s).0, id, fence, now)
    ensures AbandonRefused(t, id, fence) ==> AbandonRefused(Exec(t, s).0, id, fence)
  {
  }

  /** The row is there after every one of the statements. */
  predicate Kept(t: Table, ss: seq<Statement>, id: Id)
    decreases |ss|
  {
    id in t && (ss == [] || Kept(Exec(t, ss[0]).0, ss[1..], id))
  }

  /** For a fence of the row's lifetime, no statements that keep the row can make a refused write torn. */
  lemma {:induction false} KeptNotTorn(t: Table, ss: seq<Statement>, id: Id, fence: int, now: int)
    requires Kept(t, ss, id) && fence <= t[id].fence
    ensures !CompleteGuard(t[id], fence, now) ==> !TornComplete(Get(ExecAll(t, ss), id), fence, now)
    ensures !AbandonGuard(t[id], fence) ==> !TornAbandon(Get(ExecAll(t, ss), id), fence)
    decreases |ss|
  {
    if ss != [] {
      var t' := Exec(t, ss[0]).0;
      assert id in t' by { if |ss| > 1 { assert Kept(t', ss[1..], id); } }
      RefusalStands(t, ss[0], id, fence, now);
      KeptNotTorn(t', ss[1..], id, fence, now);
    }
  }
}
