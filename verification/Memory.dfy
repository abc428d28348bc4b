/**
 The in-process store (packages/core/src/memory.ts): record objects in a map, updated in place. Each method
 is proved to be one atomic transition of the contract on the row of its key, all other rows unchanged.
 */
module Memory {
  import opened Types
  import opened Contract

  /** One record object, updated in place by `complete`. */
  class Cell {
    var rec: Record
    constructor (r: Record)
      ensures rec == r
    { rec := r; }
  }

  const MAP_SEPARATOR := '\0'

  /** An identity without a NUL character shares its map key with no other. */
  lemma OwnKey(a: Id, b: Id)
    requires '\0' !in a.scope && '\0' !in a.key && Join(a, MAP_SEPARATOR) == Join(b, MAP_SEPARATOR)
    ensures a == b
  {
    JoinInjective(a, b, MAP_SEPARATOR);
  }

  class MemoryStore {
    var records: map<string, Cell>

    /** Two keys never share a record object, so an update in place is seen under one key only. */
    ghost predicate Valid()
      reads this
    {
      forall k, l :: k in records && l in records && k != l ==> records[k] != records[l]
    }

    ghost function Rows(): map<string, Record>
      reads this, records.Values
    {
      map k | k in records :: records[k].rec
    }

    constructor ()
      ensures Valid() && Rows() == map[]
    { records := map[]; }

    method Begin(op: Operation, o: BeginOptions) returns (out: BeginOutcome)
      requires Valid()
      modifies this
      ensures Valid() && fresh(records.Values - old(records.Values))
      ensures var k := Join(op.id, MAP_SEPARATOR);
              var (answer, row) := Contract.Begin(Get(old(Rows()), k), op, o);
              out == answer && Rows() == Put(old(Rows()), k, row)
    {
      var k := Join(op.id, MAP_SEPARATOR);
      if k in records && records[k].rec.expiresAt > o.now {
        var existing := records[k].rec;
        if existing.fingerprint != op.fingerprint { return Mismatch(existing); }
        if existing.state == Completed { return Replay(existing); }
        if existing.leaseUntil > o.now { return Busy(existing.leaseUntil); }
      }
      var fence := if k in records then records[k].rec.fence + 1 else 1;
      var cell := new Cell(FreshRecord(op, o, fence));
      records := records[k := cell];
      out := Acquired(fence);
    }

    method Complete(op: Operation, fence: int, p: Payload, now: int) returns (st: CompleteStatus)
      requires Valid()
      modifies records.Values
      ensures Valid() && records == old(records)
      ensures var k := Join(op.id, MAP_SEPARATOR);
              var (answer, row) := Contract.Complete(Get(old(Rows()), k), fence, p, now);
              st == answer && Rows() == Put(old(Rows()), k, row)
    {
      var k := Join(op.id, MAP_SEPARATOR);
      if k !in records || records[k].rec.expiresAt <= now { return NotFound; }
      var existing := records[k];
      if existing.rec.fence != fence { return StaleFence; }
      if existing.rec.state == Completed { return Ok; }
      existing.rec := existing.rec.(state := Completed);
      match p {
        case Omitted(kind, status, headers) =>
          existing.rec := existing.rec.(result := Some(StoredResult(kind, status, headers, None, None, None)),
                                        resultOmitted := true);
        case Whole(result) =>
          existing.rec := existing.rec.(result := Some(result));
      }
      st := Ok;
    }

    method Abandon(op: Operation, fence: int) returns (st: CompleteStatus)
      requires Valid()
      modifies this
      ensures Valid() && records.Values <= old(records.Values)
      ensures var k := Join(op.id, MAP_SEPARATOR);
              var (answer, row) := Contract.Abandon(Get(old(Rows()), k), fence);
              st == answer && Rows() == Put(old(Rows()), k, row)
    {
      var k := Join(op.id, MAP_SEPARATOR);
      if k !in records || records[k].rec.state != InFlight { return NotFound; }
      if records[k].rec.fence != fence { return StaleFence; }
      records := records - {k};
      st := Ok;
    }

    method Read(id: Id, now: int) returns (r: Option<Record>)
      requires Valid()
      ensures r == Contract.Read(Get(Rows(), Join(id, MAP_SEPARATOR)), now)
    {
      var k := Join(id, MAP_SEPARATOR);
      if k !in records || records[k].rec.expiresAt <= now { return None; }
      r := Some(records[k].rec);
    }

    method Purge(now: int) returns (removed: nat)
      requires Valid()
      modifies this
      ensures Valid() && records.Values <= old(records.Values)
      ensures Rows() == Contract.Purge(old(Rows()), now)
      ensures removed == |old(Rows())| - |Rows()|
    {
      var todo := records.Keys;
      removed := 0;
      ghost var rows := Rows();
      assert rows.Keys == records.Keys;
      while todo != {}
        invariant todo <= old(records).Keys
        invariant records.Keys <= old(records).Keys
        invariant forall k :: k in old(records) ==>
                                (k in records <==> k in todo || Live(old(records)[k].rec, now))
        invariant forall k :: k in records ==> records[k] == old(records)[k]
        invariant removed == |old(records).Keys| - |records.Keys|
      {
        var k :| k in todo;
        todo := todo - {k};
        if records[k].rec.expiresAt <= now {
          assert (records - {k}).Keys == records.Keys - {k};
          records := records - {k};
          removed := removed + 1;
        }
      }
      assert Rows() == Contract.Purge(rows, now);
      assert Rows().Keys == records.Keys;
    }
  }
}
