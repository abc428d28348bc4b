/**
 The DynamoDB store (packages/stores/src/dynamodb.ts). Each operation is one conditional write; a refused one
 hands back the old item, which classifies it. Attributes are loosely typed, as in the client's items.
 */
module DynamoDb {
  import opened Types
  import opened Rows
  import Contract

  datatype Name =
    | Fingerprint | State | Fence | LeaseUntil | CreatedAt | ExpiresAt | ResultMeta | ResultBody | ResultOmitted | Ttl

  /** An attribute value: text, the state's text, a number, bytes, or the JSON text of the metadata. */
  datatype Attr = S(s: string) | St(st: RecordState) | N(n: int) | B(b: seq<byte>) | Json(m: Meta)

  type Item = map<Name, Attr>

  const SEPARATOR := 31 as char
  const MAX_RESULT_BYTES := 307200

  function ItemKey(id: Id): string { Contract.Join(id, SEPARATOR) }

  /** The partition key is split at its first separator. */
  function SplitKey(pk: string): Id {
    var at := IndexOf(pk, SEPARATOR);
    if at == |pk| then Id(pk, "") else Id(pk[..at], pk[at + 1..])
  }

  /** Splitting recovers the identity exactly when the scope has no separator; the key may have one. */
  lemma SplitExact(id: Id)
    ensures SplitKey(ItemKey(id)) == id <==> SEPARATOR !in id.scope
  {
    var pk := ItemKey(id);
    var at := IndexOf(pk, SEPARATOR);
    assert pk[|id.scope|] == SEPARATOR;
    if SEPARATOR !in id.scope {
      assert at == |id.scope|;
      assert pk[..at] == id.scope && pk[at + 1..] == id.key;
    } else {
      var i :| 0 <= i < |id.scope| && id.scope[i] == SEPARATOR;
      assert pk[i] == SEPARATOR && at <= i;
    }
  }

  /** No unit separator inside. */
  predicate Clean(id: Id) { (31 as char) !in id.scope && (31 as char) !in id.key }

  /** Such an identity shares its item with no other. */
  lemma OwnItem(a: Id, b: Id)
    requires Clean(a) && ItemKey(a) == ItemKey(b)
    ensures a == b
  {
    Contract.JoinInjective(a, b, SEPARATOR);
  }

  /** The operation under the identity its item reads back as; by SplitExact, the operation itself for such scopes. */
  function AsStored(op: Operation): Operation { op.(id := SplitKey(ItemKey(op.id))) }

  function Str(item: Item, name: Name): string {
    if name in item && item[name].S? then item[name].s else ""
  }

  function Num(item: Item, name: Name): int {
    if name in item && item[name].N? then item[name].n else 0
  }

  function ItemToRow(pk: string, item: Item): Row {
    Row(SplitKey(pk),
        Str(item, Fingerprint),
        if State in item && item[State].St? then item[State].st else InFlight,
        Num(item, Fence),
        Num(item, LeaseUntil),
        Num(item, CreatedAt),
        Num(item, ExpiresAt),
        if ResultMeta in item && item[ResultMeta].Json? then Some(item[ResultMeta].m) else None,
        if ResultBody in item && item[ResultBody].B? then Some(item[ResultBody].b) else None,
        Num(item, ResultOmitted))
  }

  /** An item this store wrote. */
  predicate WfItem(item: Item) {
    && Fingerprint in item && item[Fingerprint].S?
    && State in item && item[State].St?
    && (forall a :: a in {Fence, LeaseUntil, CreatedAt, ExpiresAt, ResultOmitted} ==> a in item && item[a].N?)
    && (ResultMeta in item ==> item[ResultMeta].Json?)
    && (ResultBody in item ==> item[ResultBody].B?)
    && (item[State] == St(InFlight) ==>
          ResultMeta !in item && ResultBody !in item && item[ResultOmitted] == N(0))
  }

  // ----- the expressions; a comparison with an absent attribute is false

  predicate NumAtMost(item: Item, name: Name, bound: int) {
    name in item && item[name].N? && item[name].n <= bound
  }

  predicate Is(item: Item, name: Name, value: Attr) { name in item && item[name] == value }

  predicate BeginCondition(was: Option<Item>, fp: string, now: int) {
    || was.None?
    || NumAtMost(was.value, ExpiresAt, now)
    || (Is(was.value, Fingerprint, S(fp)) && Is(was.value, State, St(InFlight))
        && NumAtMost(was.value, LeaseUntil, now))
  }

  predicate CompleteCondition(was: Option<Item>, fence: int, now: int) {
    && was.Some?
    && Is(was.value, Fence, N(fence))
    && ExpiresAt in was.value && was.value[ExpiresAt].N? && was.value[ExpiresAt].n > now
    && Is(was.value, State, St(InFlight))
  }

  predicate AbandonCondition(was: Option<Item>, fence: int) {
    was.Some? && Is(was.value, Fence, N(fence)) && Is(was.value, State, St(InFlight))
  }

  function BeginUpdate(was: Option<Item>, fp: string, o: BeginOptions, ttlSeconds: int): Item {
    var item := if was.None? then map[] else was.value;
    var fence := (if Fence in item && item[Fence].N? then item[Fence].n else 0) + 1;
    item[Fingerprint := S(fp)][State := St(InFlight)][Fence := N(fence)]
      [LeaseUntil := N(o.now + o.leaseMs)][CreatedAt := N(o.now)][ExpiresAt := N(o.now + o.ttlMs)]
      [Ttl := N(ttlSeconds)][ResultOmitted := N(0)] - {ResultMeta, ResultBody}
  }

  function CompleteUpdate(was: Item, p: Payload): Item {
    var item := was[State := St(Completed)][ResultMeta := Json(EncodeMeta(p))]
                   [ResultOmitted := N(OmittedFlag(p))];
    match BodyOf(p)
    case Some(body) => item[ResultBody := B(body)]
    case None => item - {ResultBody}
  }

  /** None means: try again. */
  function ClassifyBegin(row: Row, op: Operation, now: int): Option<BeginOutcome> {
    if row.expiresAt <= now then None
    else if row.fingerprint != op.fingerprint then Some(Mismatch(RowToRecord(row)))
    else if row.state == Completed then Some(Replay(RowToRecord(row)))
    else if row.leaseUntil > now then Some(Busy(row.leaseUntil))
    else None
  }

  function RecordAt(items: map<string, Item>, id: Id): Option<Record> {
    if ItemKey(id) in items then Some(RowToRecord(ItemToRow(ItemKey(id), items[ItemKey(id)]))) else None
  }

  /** On items of this store a refused begin always classifies. */
  lemma RefusedBeginClassifies(item: Item, pk: string, op: Operation, now: int)
    requires WfItem(item) && !BeginCondition(Some(item), op.fingerprint, now)
    ensures ClassifyBegin(ItemToRow(pk, item), op, now).Some?
  {
  }

  lemma BeginUpdateReads(was: Option<Item>, op: Operation, o: BeginOptions, ttl: int)
    requires was.Some? ==> WfItem(was.value)
    ensures var item := BeginUpdate(was, op.fingerprint, o, ttl);
            && WfItem(item)
            && RowToRecord(ItemToRow(ItemKey(op.id), item))
               == Contract.FreshRecord(AsStored(op), o, if was.None? then 1 else Num(was.value, Fence) + 1)
  {
  }

  lemma CompleteUpdateReads(was: Item, pk: string, p: Payload)
    requires WfItem(was) && was[State] == St(InFlight)
    ensures var item := CompleteUpdate(was, p);
            && WfItem(item)
            && RowToRecord(ItemToRow(pk, item)) == Contract.CompletedRecord(RowToRecord(ItemToRow(pk, was)), p)
  {
  }

  /** When only the item of one identity changes, so does only its record, among identities without a separator. */
  lemma OthersRead(was: map<string, Item>, items: map<string, Item>, id: Id, j: Id)
    requires forall pk :: pk != ItemKey(id) ==> Get(items, pk) == Get(was, pk)
    requires j != id && Clean(j)
    ensures RecordAt(items, j) == RecordAt(was, j)
  {
    if ItemKey(j) == ItemKey(id) { OwnItem(j, id); }
    assert Get(items, ItemKey(j)) == Get(was, ItemKey(j));
  }

  class DynamoDbStore {
    var items: map<string, Item>
    const graceMs: int

    constructor (graceMs: int)
      ensures items == map[] && this.graceMs == graceMs
    {
      items := map[];
      this.graceMs := graceMs;
    }

    ghost predicate Valid()
      reads this
    {
      forall pk :: pk in items ==> WfItem(items[pk])
    }

    ghost predicate OthersKept(was: map<string, Item>, id: Id)
      reads this
    {
      forall pk :: pk != ItemKey(id) ==> Get(items, pk) == Get(was, pk)
    }

    /** The answer and effect of the reference begin, always within the first of the three tries. */
    method Begin(op: Operation, o: BeginOptions, wall: int) returns (out: Option<BeginOutcome>, tries: nat)
      requires Valid()
      modifies this
      ensures Valid() && OthersKept(old(items), op.id)
      ensures tries == 1
      ensures var (answer, row) := Contract.Begin(RecordAt(old(items), op.id), AsStored(op), o);
              out == Some(answer) && RecordAt(items, op.id) == row
      ensures out.value.Acquired? ==> Is(items[ItemKey(op.id)], Ttl, N((wall + o.ttlMs + graceMs) / 1000))
    {
      var pk := ItemKey(op.id);
      out, tries := None, 0;
      while out.None? && tries < 3
        invariant if out.None? then tries == 0 && items == old(items) else tries == 1
        invariant Valid() && OthersKept(old(items), op.id)
        invariant out.Some? ==>
                    var (answer, row) := Contract.Begin(RecordAt(old(items), op.id), AsStored(op), o);
                    out == Some(answer) && RecordAt(items, op.id) == row
        invariant out.Some? && out.value.Acquired? ==>
                    pk in items && Is(items[pk], Ttl, N((wall + o.ttlMs + graceMs) / 1000))
      {
        tries := tries + 1;
        var ttlSeconds := (wall + o.ttlMs + graceMs) / 1000;
        var found := Get(items, pk);
        if BeginCondition(found, op.fingerprint, o.now) {
          BeginUpdateReads(found, op, o, ttlSeconds);
          var item := BeginUpdate(found, op.fingerprint, o, ttlSeconds);
          items := items[pk := item];
          out := Some(Acquired(item[Fence].n));
        } else {
          RefusedBeginClassifies(found.value, pk, op, o.now);
          out := ClassifyBegin(ItemToRow(pk, found.value), op, o.now);
        }
      }
    }

    /** None is the error for a body over the item cap, raised before anything is sent. */
    method Complete(op: Operation, fence: int, p: Payload, now: int) returns (st: Option<CompleteStatus>)
      requires Valid()
      modifies this
      ensures Valid() && OthersKept(old(items), op.id)
      ensures st.None? <==> BodyOf(p).Some? && |BodyOf(p).value| > 307_200
      ensures if st.None? then items == old(items)
              else var (answer, row) := Contract.Complete(RecordAt(old(items), op.id), fence, p, now);
                   st.value == answer && RecordAt(items, op.id) == row
    {
      var pk := ItemKey(op.id);
      if BodyOf(p).Some? && |BodyOf(p).value| > MAX_RESULT_BYTES { return None; }
      var found := Get(items, pk);
      if CompleteCondition(found, fence, now) {
        CompleteUpdateReads(found.value, pk, p);
        items := items[pk := CompleteUpdate(found.value, p)];
        return Some(Ok);
      }
      if found.None? { return Some(NotFound); }
      var row := ItemToRow(pk, found.value);
      if row.expiresAt <= now { return Some(NotFound); }
      if row.fence != fence { return Some(StaleFence); }
      return Some(Ok);
    }

    method Abandon(op: Operation, fence: int) returns (st: CompleteStatus)
      requires Valid()
      modifies this
      ensures Valid() && OthersKept(old(items), op.id)
      ensures var (answer, row) := Contract.Abandon(RecordAt(old(items), op.id), fence);
              st == answer && RecordAt(items, op.id) == row
    {
      var pk := ItemKey(op.id);
      var found := Get(items, pk);
      if AbandonCondition(found, fence) {
        items := items - {pk};
        return Ok;
      }
      if found.None? { return NotFound; }
      var row := ItemToRow(pk, found.value);
      if row.state != InFlight { return NotFound; }
      return if row.fence == fence then NotFound else StaleFence;
    }

    method Read(id: Id, now: int) returns (r: Option<Record>)
      requires Valid()
      ensures r == Contract.Read(RecordAt(items, id), now)
    {
      var pk := ItemKey(id);
      if pk !in items { return None; }
      var row := ItemToRow(pk, items[pk]);
      return if row.expiresAt > now then Some(RowToRecord(row)) else None;
    }
  }
}
