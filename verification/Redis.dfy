/**
 The Redis store (packages/stores/src/redis.ts). Every transition is one script that runs alone on one hash;
 the scripts below issue their HSET, HDEL, DEL and PEXPIRE commands in order.
 */
module Redis {
  import opened Types
  import opened Rows
  import Contract

  datatype Field =
    | Fingerprint | State | Fence | LeaseUntil | CreatedAt | ExpiresAt | ResultMeta | ResultBody | ResultOmitted

  /** A field value: text, the state's text, a number's text, metadata text, or a body in base64. */
  datatype Val = Text(s: string) | St(st: RecordState) | Num(n: int) | Json(m: Meta) | Base64(b: seq<byte>)

  type Hash = map<Field, Val>

  /** The body argument of the complete script; the dash stands for no body and is no base64 text. */
  datatype BodyArg = Dash | Encoded(b: seq<byte>)

  datatype Reply =
    | AcquiredReply(fence: int)
    | InFlightReply(leaseUntil: int)
    | CompletedReply(all: Hash)
    | MismatchReply(all: Hash)

  const SEPARATOR := 31 as char

  function Number(h: Hash, f: Field): int { if f in h && h[f].Num? then h[f].n else 0 }

  function HashToRow(id: Id, h: Hash): Row {
    Row(id,
        if Fingerprint in h && h[Fingerprint].Text? then h[Fingerprint].s else "",
        if State in h && h[State].St? then h[State].st else InFlight,
        Number(h, Fence), Number(h, LeaseUntil), Number(h, CreatedAt), Number(h, ExpiresAt),
        if ResultMeta in h && h[ResultMeta].Json? then Some(h[ResultMeta].m) else None,
        if ResultBody in h && h[ResultBody].Base64? then Some(h[ResultBody].b) else None,
        Number(h, ResultOmitted))
  }

  /** A hash the scripts wrote. */
  predicate WfHash(h: Hash) {
    && Fingerprint in h && h[Fingerprint].Text?
    && State in h && h[State].St?
    && (forall f :: f in {Fence, LeaseUntil, CreatedAt, ExpiresAt, ResultOmitted} ==> f in h && h[f].Num?)
    && (ResultMeta in h ==> h[ResultMeta].Json?)
    && (ResultBody in h ==> h[ResultBody].Base64?)
    && (h[State].st == InFlight ==> ResultMeta !in h && ResultBody !in h && h[ResultOmitted].n == 0)
  }

  function ClaimFields(fp: string, now: int, lease: int, ttl: int, fence: int): Hash {
    map[Fingerprint := Text(fp), State := St(InFlight), Fence := Num(fence), LeaseUntil := Num(now + lease),
        CreatedAt := Num(now), ExpiresAt := Num(now + ttl), ResultOmitted := Num(0)]
  }

  /** A claim overwrites every field, so that whatever the hash held before, it reads as a fresh record. */
  lemma ClaimReads(h: Hash, op: Operation, o: BeginOptions, fence: int)
    requires h == map[] || WfHash(h)
    ensures var h' := h + ClaimFields(op.fingerprint, o.now, o.leaseMs, o.ttlMs, fence) - {ResultMeta, ResultBody};
            WfHash(h') && RowToRecord(HashToRow(op.id, h')) == Contract.FreshRecord(op, o, fence)
  {
  }

  function ResultFields(meta: Meta, omitted: int): Hash {
    map[State := St(Completed), ResultMeta := Json(meta), ResultOmitted := Num(omitted)]
  }

  function BodyFields(h: Hash, body: BodyArg): Hash {
    match body
    case Dash => h - {ResultBody}
    case Encoded(b) => h[ResultBody := Base64(b)]
  }

  function Arg(p: Payload): BodyArg {
    match BodyOf(p)
    case None => Dash
    case Some(b) => Encoded(b)
  }

  lemma ResultReads(h: Hash, id: Id, p: Payload)
    requires WfHash(h) && h[State].st == InFlight
    ensures var h' := BodyFields(h + ResultFields(EncodeMeta(p), OmittedFlag(p)), Arg(p));
            && WfHash(h')
            && RowToRecord(HashToRow(id, h')) == Contract.CompletedRecord(RowToRecord(HashToRow(id, h)), p)
  {
  }

  /** No unit separator inside. */
  predicate Clean(id: Id) { (31 as char) !in id.scope && (31 as char) !in id.key }

  class RedisStore {
    var hashes: map<string, Hash>
    /** Milliseconds until the native expiry of a key, as last set. */
    var expiry: map<string, int>
    const prefix: string
    const graceMs: int

    constructor (prefix: string, graceMs: int)
      ensures hashes == map[] && this.prefix == prefix && this.graceMs == graceMs
    {
      hashes, expiry := map[], map[];
      this.prefix, this.graceMs := prefix, graceMs;
    }

    ghost predicate Valid()
      reads this
    {
      forall k :: k in hashes ==> WfHash(hashes[k])
    }

    function KeyFor(id: Id): string { prefix + Contract.Join(id, SEPARATOR) }

    /** The key of a record: the prefix, then scope and key around a unit separator; so it identifies the record. */
    lemma KeyExact(a: Id, b: Id)
      ensures KeyFor(a)[..|prefix|] == prefix
      ensures Clean(a) && KeyFor(a) == KeyFor(b) ==> a == b
    {
      if Clean(a) && KeyFor(a) == KeyFor(b) {
        assert KeyFor(a)[|prefix|..] == Contract.Join(a, SEPARATOR);
        assert KeyFor(b)[|prefix|..] == Contract.Join(b, SEPARATOR);
        Contract.JoinInjective(a, b, SEPARATOR);
      }
    }

    /** All records but one, of identities without a separator, are as they were. */
    twostate lemma Apart(id: Id)
      requires OthersKept(old(hashes), KeyFor(id))
      ensures forall j :: j != id && Clean(j) ==> RecordAt(j) == old(RecordAt(j))
    {
      forall j | j != id && Clean(j) ensures RecordAt(j) == old(RecordAt(j)) {
        KeyExact(j, id);
        assert Get(hashes, KeyFor(j)) == Get(old(hashes), KeyFor(j));
      }
    }

    function RecordAt(id: Id): Option<Record>
      reads this
    {
      if KeyFor(id) in hashes then Some(RowToRecord(HashToRow(id, hashes[KeyFor(id)]))) else None
    }

    ghost predicate OthersKept(was: map<string, Hash>, k: string)
      reads this
    {
      forall j :: j != k ==> Get(hashes, j) == Get(was, j)
    }

    // ----- the commands a script issues

    method HSet(k: string, fields: Hash)
      modifies this`hashes
      ensures hashes == old(hashes)[k := (if k in old(hashes) then old(hashes)[k] else map[]) + fields]
    {
      hashes := hashes[k := (if k in hashes then hashes[k] else map[]) + fields];
    }

    method HDel(k: string, fields: set<Field>)
      requires k in hashes && hashes[k].Keys - fields != {}
      modifies this`hashes
      ensures hashes == old(hashes)[k := old(hashes)[k] - fields]
    {
      hashes := hashes[k := hashes[k] - fields];
    }

    /** The writing half of the begin script. */
    method Claim(k: string, fp: string, now: int, lease: int, ttl: int, grace: int, fence: int, ghost id: Id)
      requires Valid() && KeyFor(id) == k
      modifies this
      ensures Valid() && OthersKept(old(hashes), k)
      ensures RecordAt(id) == Some(Contract.FreshRecord(Operation(id, fp), BeginOptions(lease, ttl, now), fence))
      ensures k in expiry && expiry[k] == ttl + grace
    {
      ghost var h := if k in hashes then hashes[k] else map[];
      HSet(k, ClaimFields(fp, now, lease, ttl, fence));
      assert Fingerprint in hashes[k].Keys - {ResultMeta, ResultBody};
      HDel(k, {ResultMeta, ResultBody});
      ClaimReads(h, Operation(id, fp), BeginOptions(lease, ttl, now), fence);
      expiry := expiry[k := ttl + grace];
    }

    method BeginScript(k: string, fp: string, now: int, lease: int, ttl: int, grace: int, ghost id: Id)
      returns (r: Reply)
      requires Valid() && KeyFor(id) == k
      modifies this
      ensures Valid() && OthersKept(old(hashes), k)
      ensures (Decode(id, r), RecordAt(id))
              == Contract.Begin(old(RecordAt(id)), Operation(id, fp), BeginOptions(lease, ttl, now))
      ensures r.AcquiredReply? ==> k in expiry && expiry[k] == ttl + grace
    {
      var fence := 1;
      if k in hashes && Fingerprint in hashes[k] {
        var row := hashes[k];
        if Number(row, ExpiresAt) > now {
          if row[Fingerprint] != Text(fp) { return MismatchReply(row); }
          if row[State] == St(Completed) { return CompletedReply(row); }
          if Number(row, LeaseUntil) > now { return InFlightReply(Number(row, LeaseUntil)); }
        }
        fence := Number(row, Fence) + 1;
      }
      Claim(k, fp, now, lease, ttl, grace, fence, id);
      return AcquiredReply(fence);
    }

    method CompleteScript(k: string, fence: int, now: int, meta: Meta, body: BodyArg, omitted: int, ghost id: Id,
                          ghost p: Payload)
      returns (st: CompleteStatus)
      requires Valid() && KeyFor(id) == k
      requires meta == EncodeMeta(p) && body == Arg(p) && omitted == OmittedFlag(p)
      modifies this
      ensures Valid() && OthersKept(old(hashes), k)
      ensures (st, RecordAt(id)) == Contract.Complete(old(RecordAt(id)), fence, p, now)
    {
      if k !in hashes || Fence !in hashes[k] || Number(hashes[k], ExpiresAt) <= now { return NotFound; }
      if Number(hashes[k], Fence) != fence { return StaleFence; }
      if hashes[k][State] == St(Completed) { return Ok; }
      ghost var h := hashes[k];
      HSet(k, ResultFields(meta, omitted));
      if body.Dash? {
        assert Fingerprint in hashes[k].Keys - {ResultBody};
        HDel(k, {ResultBody});
      } else {
        HSet(k, map[ResultBody := Base64(body.b)]);
        assert hashes[k] == BodyFields(h + ResultFields(meta, omitted), body);
      }
      ResultReads(h, id, p);
      return Ok;
    }

    method AbandonScript(k: string, fence: int, ghost id: Id) returns (st: CompleteStatus)
      requires Valid() && KeyFor(id) == k
      modifies this
      ensures Valid() && OthersKept(old(hashes), k)
      ensures (st, RecordAt(id)) == Contract.Abandon(old(RecordAt(id)), fence)
    {
      if k !in hashes || Fence !in hashes[k] || hashes[k][State] != St(InFlight) { return NotFound; }
      if Number(hashes[k], Fence) != fence { return StaleFence; }
      hashes := hashes - {k};
      return Ok;
    }

    // ----- the store's calls

    function Decode(id: Id, r: Reply): BeginOutcome {
      match r
      case AcquiredReply(fence) => Acquired(fence)
      case InFlightReply(until) => Busy(until)
      case CompletedReply(all) => Replay(RowToRecord(HashToRow(id, all)))
      case MismatchReply(all) => Mismatch(RowToRecord(HashToRow(id, all)))
    }

    method Begin(op: Operation, o: BeginOptions) returns (out: BeginOutcome)
      requires Valid()
      modifies this
      ensures Valid() && OthersKept(old(hashes), KeyFor(op.id))
      ensures (out, RecordAt(op.id)) == Contract.Begin(old(RecordAt(op.id)), op, o)
      ensures forall j :: j != op.id && Clean(j) ==> RecordAt(j) == old(RecordAt(j))
      ensures out.Acquired? ==> KeyFor(op.id) in expiry && expiry[KeyFor(op.id)] == o.ttlMs + graceMs
    {
      var r := BeginScript(KeyFor(op.id), op.fingerprint, o.now, o.leaseMs, o.ttlMs, graceMs, op.id);
      out := Decode(op.id, r);
      Apart(op.id);
    }

    method Complete(op: Operation, fence: int, p: Payload, now: int) returns (st: CompleteStatus)
      requires Valid()
      modifies this
      ensures Valid() && OthersKept(old(hashes), KeyFor(op.id))
      ensures (st, RecordAt(op.id)) == Contract.Complete(old(RecordAt(op.id)), fence, p, now)
      ensures forall j :: j != op.id && Clean(j) ==> RecordAt(j) == old(RecordAt(j))
    {
      st := CompleteScript(KeyFor(op.id), fence, now, EncodeMeta(p), Arg(p), OmittedFlag(p), op.id, p);
      Apart(op.id);
    }

    method Abandon(op: Operation, fence: int) returns (st: CompleteStatus)
      requires Valid()
      modifies this
      ensures Valid() && OthersKept(old(hashes), KeyFor(op.id))
      ensures (st, RecordAt(op.id)) == Contract.Abandon(old(RecordAt(op.id)), fence)
      ensures forall j :: j != op.id && Clean(j) ==> RecordAt(j) == old(RecordAt(j))
    {
      st := AbandonScript(KeyFor(op.id), fence, op.id);
      Apart(op.id);
    }

    method Read(id: Id, now: int) returns (r: Option<Record>)
      requires Valid()
      ensures r == Contract.Read(RecordAt(id), now)
    {
      if KeyFor(id) !in hashes || Fingerprint !in hashes[KeyFor(id)] { return None; }
      var row := HashToRow(id, hashes[KeyFor(id)]);
      return if row.expiresAt > now then Some(RowToRecord(row)) else None;
    }
  }
}
