/**
 The SQL store (packages/stores/src/postgres.ts, with the same shape in d1.ts and in
 go/store/internal/sqlstore/sqlstore.go): one conditional write, then a SELECT that classifies a refusal.
 Other clients' statements run before each of the store's own; which ones is a parameter, so every
 interleaving is covered.
 */
module Postgres {
  import opened Types
  import opened Rows
  import opened Sql
  import Contract

  /** `others(i)` is what other clients execute between this call's statements i-1 and i. */
  type Schedule = nat -> seq<Statement>

  /** All statements of others that ran before this call's statement n. */
  function Before(others: Schedule, n: nat): seq<Statement> {
    if n == 0 then others(0) else Before(others, n - 1) + others(n)
  }

  class Database {
    var rows: Table

    constructor ()
      ensures rows == map[]
    { rows := map[]; }

    method Query(s: Statement) returns (fence: Option<int>)
      modifies this
      ensures (rows, fence) == Exec(old(rows), s)
    {
      var (t, f) := Exec(rows, s);
      rows := t;
      fence := f;
    }

    method Select(id: Id) returns (row: Option<Row>)
      ensures row == Get(rows, id)
    {
      row := Get(rows, id);
    }

    /** Other clients' statements, one after the other. */
    method Interfere(ss: seq<Statement>)
      modifies this
      ensures rows == ExecAll(old(rows), ss)
    {
      var i := 0;
      while i < |ss|
        invariant 0 <= i <= |ss|
        invariant ExecAll(rows, ss[i..]) == ExecAll(old(rows), ss)
      {
        assert ss[i..][1..] == ss[i + 1..];
        var _ := Query(ss[i]);
        i := i + 1;
      }
    }
  }

  /** The claim statement either is the reference begin or writes nothing. */
  lemma WriteAnswers(t: Table, op: Operation, o: BeginOptions)
    requires Wf(t)
    ensures var (t', fence) := Exec(t, BeginStmt(op, o));
            && Wf(t')
            && (fence.None? ==> t' == t)
            && (fence.Some? ==>
                  var (answer, row) := Contract.Begin(Get(Abs(t), op.id), op, o);
                  answer == Acquired(fence.value) && Abs(t') == Put(Abs(t), op.id, row))
  {
    BeginExact(t, op, o);
    WfExec(t, BeginStmt(op, o));
  }

  /** The read after a refusal at `refusing` is the reference begin, or finds a different row. */
  lemma ReadAnswers(refusing: Table, t: Table, op: Operation, o: BeginOptions)
    requires Exec(refusing, BeginStmt(op, o)).1.None?
    ensures var c := ClassifyBegin(Get(t, op.id), op, o.now);
            && (c.None? ==> Get(refusing, op.id) != Get(t, op.id))
            && (c.Some? ==>
                  var (answer, row) := Contract.Begin(Get(Abs(t), op.id), op, o);
                  answer == c.value && Abs(t) == Put(Abs(t), op.id, row))
  {
    ClassifyBeginExact(t, op, o);
    PutGet(Abs(t), op.id);
  }

  /** The answer and the table left behind are those of the reference begin on `t`. */
  ghost predicate IsBegin(t: Table, op: Operation, o: BeginOptions, out: BeginOutcome, t': Table) {
    var (answer, row) := Contract.Begin(Get(Abs(t), op.id), op, o);
    out == answer && Abs(t') == Put(Abs(t), op.id, row)
  }

  class PostgresStore {
    const db: Database

    constructor (db: Database)
      ensures this.db == db
    { this.db := db; }

    /** The table just before this call's statement n, if the call itself wrote nothing until then. */
    ghost function Seen(t: Table, others: Schedule, n: nat): Table { ExecAll(t, Before(others, n)) }

    /** The others changed the row between this call's statements n and n + 1. */
    ghost predicate Changed(t: Table, others: Schedule, n: nat, id: Id) {
      Get(Seen(t, others, n), id) != Get(Seen(t, others, n + 1), id)
    }

    /**
     An answer is the reference begin taken at the call's last statement (a write, numbered even, if it acquired,
     else a read), on the table as the others had left it by then, with the same effect. Without an answer nothing
     was written, and in each of the three tries the row changed between the refused write and the read.
     */
    method Begin(op: Operation, o: BeginOptions, others: Schedule) returns (out: Option<BeginOutcome>, ghost last: nat)
      requires Wf(db.rows)
      modifies db
      ensures Wf(db.rows)
      ensures out.Some? ==>
                && IsBegin(Seen(old(db.rows), others, last), op, o, out.value, db.rows)
                && (if out.value.Acquired? then last in {0, 2, 4} else last in {1, 3, 5})
      ensures out.None? ==>
                && last == 5 && db.rows == Seen(old(db.rows), others, 5)
                && forall a :: 0 <= a < 3 ==> Changed(old(db.rows), others, 2 * a, op.id)
    {
      ghost var t0 := db.rows;
      var attempt := 0;
      last := 0;
      while attempt < 3
        invariant 0 <= attempt <= 3
        invariant Wf(db.rows)
        invariant db.rows == if attempt == 0 then t0 else Seen(t0, others, 2 * attempt - 1)
        invariant attempt > 0 ==> last == 2 * attempt - 1
        invariant forall a :: 0 <= a < attempt ==> Changed(t0, others, 2 * a, op.id)
      {
        out, last := Attempt(op, o, others, t0, 2 * attempt);
        if out.Some? { return; }
        attempt := attempt + 1;
      }
      return None, last;
    }

    /** One try of the loop: the call's statements n and, if the write was refused, n + 1. */
    method Attempt(op: Operation, o: BeginOptions, others: Schedule, ghost t0: Table, n: nat)
      returns (out: Option<BeginOutcome>, ghost last: nat)
      requires Wf(db.rows) && db.rows == if n == 0 then t0 else Seen(t0, others, n - 1)
      modifies db
      ensures Wf(db.rows)
      ensures out.Some? ==> IsBegin(Seen(t0, others, last), op, o, out.value, db.rows)
      ensures out.Some? ==> last == if out.value.Acquired? then n else n + 1
      ensures out.None? ==> last == n + 1 && db.rows == Seen(t0, others, n + 1)
                            && Changed(t0, others, n, op.id)
    {
      Step(t0, others, n);
      last := n;
      ghost var refusing := db.rows;
      WriteAnswers(db.rows, op, o);
      var fence := db.Query(BeginStmt(op, o));
      if fence.Some? { return Some(Acquired(fence.value)), last; }
      Step(t0, others, n + 1);
      last := n + 1;
      ReadAnswers(refusing, db.rows, op, o);
      var existing := db.Select(op.id);
      return ClassifyBegin(existing, op, o.now), last;
    }

    /** The others' statements before statement n of a call that has written nothing yet. */
    method Step(ghost t0: Table, others: Schedule, n: nat)
      requires Wf(db.rows) && db.rows == if n == 0 then t0 else Seen(t0, others, n - 1)
      modifies db
      ensures Wf(db.rows) && db.rows == Seen(t0, others, n)
    {
      if n > 0 { ExecAllAppend(t0, Before(others, n - 1), others(n)); }
      WfExecAll(db.rows, others(n));
      db.Interfere(others(n));
    }

    /**
     Answered at the write, or at the read unless the read is torn. A torn read answers `ok` while nothing was
     stored; the others' statements cannot cause one while they keep the row and the row issued this fence.
     */
    method Complete(op: Operation, fence: int, p: Payload, now: int, others: Schedule)
      returns (st: CompleteStatus, ghost last: nat)
      requires Wf(db.rows)
      modifies db
      ensures Wf(db.rows) && last <= 1
      ensures var t := Seen(old(db.rows), others, last);
              var (answer, row) := Contract.Complete(Get(Abs(t), op.id), fence, p, now);
              if last == 1 && TornComplete(Get(t, op.id), fence, now) then st == Ok && db.rows == t
              else st == answer && Abs(db.rows) == Put(Abs(t), op.id, row)
      ensures var t := Seen(old(db.rows), others, 0);
              last == 1 && op.id in t && fence <= t[op.id].fence && Kept(t, others(1), op.id) ==>
                !TornComplete(Get(Seen(old(db.rows), others, 1), op.id), fence, now)
    {
      ghost var t0 := db.rows;
      Step(t0, others, 0);
      last := 0;
      CompleteExact(db.rows, op.id, fence, p, now);
      WfExec(db.rows, CompleteStmt(op.id, fence, now, p));
      ghost var t := db.rows;
      var written := db.Query(CompleteStmt(op.id, fence, now, p));
      if written.Some? { return Ok, last; }
      Step(t0, others, 1);
      last := 1;
      ExecAllAppend(t0, Before(others, 0), others(1));
      if op.id in t && fence <= t[op.id].fence && Kept(t, others(1), op.id) {
        KeptNotTorn(t, others(1), op.id, fence, now);
      }
      ClassifyCompleteExact(db.rows, op.id, fence, p, now);
      PutGet(Abs(db.rows), op.id);
      var existing := db.Select(op.id);
      return ClassifyComplete(existing, fence, now), last;
    }

    method Abandon(op: Operation, fence: int, others: Schedule) returns (st: CompleteStatus, ghost last: nat)
      requires Wf(db.rows)
      modifies db
      ensures Wf(db.rows) && last <= 1
      ensures var t := Seen(old(db.rows), others, last);
              var (answer, row) := Contract.Abandon(Get(Abs(t), op.id), fence);
              if last == 1 && TornAbandon(Get(t, op.id), fence) then st == NotFound && db.rows == t
              else st == answer && Abs(db.rows) == Put(Abs(t), op.id, row)
      ensures var t := Seen(old(db.rows), others, 0);
              last == 1 && op.id in t && fence <= t[op.id].fence && Kept(t, others(1), op.id) ==>
                !TornAbandon(Get(Seen(old(db.rows), others, 1), op.id), fence)
    {
      ghost var t0 := db.rows;
      Step(t0, others, 0);
      last := 0;
      AbandonExact(db.rows, op.id, fence);
      WfExec(db.rows, AbandonStmt(op.id, fence));
      ghost var t := db.rows;
      var deleted := db.Query(AbandonStmt(op.id, fence));
      if deleted.Some? { return Ok, last; }
      Step(t0, others, 1);
      last := 1;
      ExecAllAppend(t0, Before(others, 0), others(1));
      if op.id in t && fence <= t[op.id].fence && Kept(t, others(1), op.id) {
        KeptNotTorn(t, others(1), op.id, fence, 0);
      }
      ClassifyAbandonExact(db.rows, op.id, fence);
      PutGet(Abs(db.rows), op.id);
      var existing := db.Select(op.id);
      return ClassifyAbandon(existing, fence), last;
    }
  }

  /**
   The torn read happens: a holder whose row was removed and claimed again between its two statements is told
   `ok`, although the row is the successor's, still in flight, and no complete took effect.
   */
  lemma TornReadStoresNothing(op: Operation, o: BeginOptions, now: int, p: Payload)
    requires o.now < now < o.now + o.ttlMs
    ensures var others := [BeginStmt(op, o)];
            var t := ExecAll(map[], others);
            && Exec(map[], CompleteStmt(op.id, 1, now, p)) == (map[], None)
            && ClassifyComplete(Get(t, op.id), 1, now) == Ok
            && t[op.id].state == InFlight && t[op.id].meta == None
            && Contract.Complete(Get(Abs(map[]), op.id), 1, p, now).0 == NotFound
  {
    assert ExecAll(map[], [BeginStmt(op, o)]) == Exec(map[], BeginStmt(op, o)).0;
  }
}
