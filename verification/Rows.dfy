/**
 The flat row the shared stores persist and its reading as a record (packages/stores/src/codec.ts). The
 JSON text of the result's metadata is taken as the value it encodes.
 */
module Rows {
  import opened Types
  import Contract

  /** Everything in a result except the body. */
  datatype Meta = Meta(
    kind: Kind,
    status: Option<int>,
    headers: Option<seq<Header>>,
    outcome: Option<bool>,
    error: Option<ErrorInfo>)

  datatype Row = Row(
    id: Id,
    fingerprint: string,
    state: RecordState,
    fence: int,
    leaseUntil: int,
    createdAt: int,
    expiresAt: int,
    meta: Option<Meta>,
    body: Option<seq<byte>>,
    omitted: int)

  function EncodeMeta(p: Payload): Meta {
    match p
    case Whole(r) => Meta(r.kind, r.status, r.headers, r.outcome, r.error)
    case Omitted(k, s, h) => Meta(k, s, h, None, None)
  }

  function DecodeMeta(m: Meta): StoredResult {
    StoredResult(m.kind, m.status, m.headers, None, m.outcome, m.error)
  }

  function BodyOf(p: Payload): Option<seq<byte>> {
    match p
    case Whole(r) => r.body
    case Omitted(_, _, _) => None
  }

  function OmittedFlag(p: Payload): int { if p.Omitted? then 1 else 0 }

  function NewRow(op: Operation, o: BeginOptions, fence: int): Row {
    Row(op.id, op.fingerprint, InFlight, fence, o.now + o.leaseMs, o.now, o.now + o.ttlMs, None, None, 0)
  }

  function CompletedRow(r: Row, p: Payload): Row {
    r.(state := Completed, meta := Some(EncodeMeta(p)), body := BodyOf(p), omitted := OmittedFlag(p))
  }

  function RowToRecord(r: Row): Record {
    var result := if r.meta.None? then None else Some(DecodeMeta(r.meta.value).(body := r.body));
    Record(r.id, r.fingerprint, r.state, r.fence, r.leaseUntil, r.createdAt, r.expiresAt, result, r.omitted == 1)
  }

  /** A row some store wrote: an in-flight row carries no result. */
  predicate WellFormed(r: Row) {
    r.state == InFlight ==> r.meta.None? && r.body.None? && r.omitted == 0
  }

  /** Reading back what `complete` wrote gives the record the reference store holds, for both payload forms. */
  lemma CompletedReadsBack(r: Row, p: Payload)
    requires WellFormed(r) && r.state == InFlight
    ensures RowToRecord(CompletedRow(r, p)) == Contract.CompletedRecord(RowToRecord(r), p)
    ensures WellFormed(CompletedRow(r, p))
  {
  }

  lemma NewReadsBack(op: Operation, o: BeginOptions, fence: int)
    ensures RowToRecord(NewRow(op, o, fence)) == Contract.FreshRecord(op, o, fence)
    ensures WellFormed(NewRow(op, o, fence))
  {
  }
}
