/**
 The claim store contract (packages/core/src/types.ts) as atomic transitions. Every operation touches the row of
 one id, so the transitions are functions of one row; every other store is proved against these.
 */
module Contract {
  import opened Types

  predicate Live(r: Record, now: int) { r.expiresAt > now }

  function FreshRecord(op: Operation, o: BeginOptions, fence: int): Record {
    Record(op.id, op.fingerprint, InFlight, fence, o.now + o.leaseMs, o.now, o.now + o.ttlMs, None, false)
  }

  /** Outcome and row left behind by `begin`. */
  function Begin(row: Option<Record>, op: Operation, o: BeginOptions): (BeginOutcome, Option<Record>) {
    if row.Some? && Live(row.value, o.now) && row.value.fingerprint != op.fingerprint then
      (Mismatch(row.value), row)
    else if row.Some? && Live(row.value, o.now) && row.value.state == Completed then
      (Replay(row.value), row)
    else if row.Some? && Live(row.value, o.now) && row.value.leaseUntil > o.now then
      (Busy(row.value.leaseUntil), row)
    else
      var fence := if row.None? then 1 else row.value.fence + 1;
      (Acquired(fence), Some(FreshRecord(op, o, fence)))
  }

  function CompletedRecord(r: Record, p: Payload): Record {
    r.(state := Completed, result := Some(p.Stored()), resultOmitted := r.resultOmitted || p.Omitted?)
  }

  function Complete(row: Option<Record>, fence: int, p: Payload, now: int): (CompleteStatus, Option<Record>) {
    if row.None? || !Live(row.value, now) then (NotFound, row)
    else if row.value.fence != fence then (StaleFence, row)
    else if row.value.state == Completed then (Ok, row)
    else (Ok, Some(CompletedRecord(row.value, p)))
  }

  function Abandon(row: Option<Record>, fence: int): (CompleteStatus, Option<Record>) {
    if row.None? || row.value.state != InFlight then (NotFound, row)
    else if row.value.fence != fence then (StaleFence, row)
    else (Ok, None)
  }

  function Read(row: Option<Record>, now: int): Option<Record> {
    if row.Some? && Live(row.value, now) then row else None
  }

  function Purge<K>(rows: map<K, Record>, now: int): map<K, Record> {
    map k | k in rows && Live(rows[k], now) :: rows[k]
  }

  /** The free-or-takeover condition of the contract: logically absent, or our own payload with a lapsed lease. */
  predicate Claimable(row: Option<Record>, fingerprint: string, now: int) {
    || row.None?
    || row.value.expiresAt <= now
    || (row.value.fingerprint == fingerprint && row.value.state == InFlight && row.value.leaseUntil <= now)
  }

  /**
   The documented precedence (expiry, then fingerprint, then state and lease), stated per answer and in
   both directions; only an acquire writes, and it continues the fence of a row that is physically there.
   */
  lemma BeginContract(row: Option<Record>, op: Operation, o: BeginOptions)
    ensures var (out, row') := Begin(row, op, o);
            && (out.Acquired? <==> Claimable(row, op.fingerprint, o.now))
            && (out.Mismatch? <==> row.Some? && Live(row.value, o.now) && row.value.fingerprint != op.fingerprint)
            && (out.Replay? <==> row.Some? && Live(row.value, o.now) && row.value.fingerprint == op.fingerprint
                                 && row.value.state == Completed)
            && (!out.Acquired? ==> row' == row)
            && (out.Acquired? ==> row'.Some? && row'.value.fence == out.fence && row'.value.state == InFlight
                                  && out.fence == (if row.Some? then row.value.fence else 0) + 1
                                  && row'.value.result == None && !row'.value.resultOmitted)
  {
  }

  /** `complete` writes exactly when an unexpired row is in flight at the caller's fence, and then once. */
  lemma CompleteContract(row: Option<Record>, fence: int, p: Payload, now: int)
    ensures var (st, row') := Complete(row, fence, p, now);
            && (row' != row ==> row.Some? && Live(row.value, now) && row.value.fence == fence
                                && row.value.state == InFlight && st == Ok)
            && (st == Ok ==> row'.Some? && row'.value.fence == fence && row'.value.state == Completed)
            && Complete(row', fence, p, now) == (st, row')
  {
  }

  /** `stale_fence` is answered for a fence that differs in either direction, once the row decides at all. */
  lemma StaleExact(row: Option<Record>, fence: int, p: Payload, now: int)
    ensures Complete(row, fence, p, now).0 == StaleFence <==>
            row.Some? && Live(row.value, now) && row.value.fence != fence
    ensures Abandon(row, fence).0 == StaleFence <==>
            row.Some? && row.value.state == InFlight && row.value.fence != fence
  {
  }

  /**
   It does not mean that the record's fence is higher: the row of a holder with fence 2 is removed and claimed
   again at fence 1, and the holder is told `stale_fence`.
   */
  lemma StaleBelow(op: Operation, leaseMs: int, ttlMs: int, p: Payload)
    requires ttlMs > 0
    ensures var (first, r1) := Begin(None, op, BeginOptions(leaseMs, ttlMs, 0));
            var (second, r2) := Begin(r1, op, BeginOptions(leaseMs, ttlMs, leaseMs));
            var (third, r3) := Begin(None, op, BeginOptions(leaseMs, ttlMs, leaseMs));
            && first == Acquired(1) && second == Acquired(2) && third == Acquired(1)
            && Complete(r3, 2, p, leaseMs).0 == StaleFence && r3.value.fence < 2
  {
  }

  /** A row is read exactly while it has not expired, as it is. */
  lemma ReadExact(row: Option<Record>, now: int)
    ensures Read(row, now) == None <==> row.None? || row.value.expiresAt <= now
    ensures Read(row, now).Some? ==> Read(row, now) == row
  {
  }

  // ----- the key of the record map

  function Join(id: Id, sep: char): string { id.scope + [sep] + id.key }

  /** A map key made of a scope and a key without a separator is made of nothing else. */
  lemma {:induction false} JoinInjective(a: Id, b: Id, sep: char)
    requires sep !in a.scope && sep !in a.key && Join(a, sep) == Join(b, sep)
    ensures a == b
  {
    var s := Join(a, sep);
    assert forall i :: |a.scope| < i < |s| ==> s[i] == a.key[i - |a.scope| - 1];
    assert s[|b.scope|] == sep;
    assert a.scope == s[..|a.scope|] == b.scope;
    assert a.key == s[|a.scope| + 1..] == b.key;
  }

  /** Another identity with the same map key, made by splitting at another separator. */
  lemma AnotherSplit(a: Id, sep: char) returns (b: Id)
    requires sep in a.scope || sep in a.key
    ensures b != a && Join(b, sep) == Join(a, sep)
  {
    if sep in a.scope {
      var i :| 0 <= i < |a.scope| && a.scope[i] == sep;
      b := Id(a.scope[..i], a.scope[i + 1..] + [sep] + a.key);
      assert a.scope == a.scope[..i] + [sep] + a.scope[i + 1..];
    } else {
      var i :| 0 <= i < |a.key| && a.key[i] == sep;
      b := Id(a.scope + [sep] + a.key[..i], a.key[i + 1..]);
      assert a.key == a.key[..i] + [sep] + a.key[i + 1..];
    }
    assert |b.scope| != |a.scope|;
  }

  /** A record is shared with another identity exactly when there is a separator inside the scope or the key. */
  lemma JoinExact(a: Id, sep: char)
    ensures (exists b :: b != a && Join(b, sep) == Join(a, sep)) <==> sep in a.scope || sep in a.key
  {
    if sep in a.scope || sep in a.key {
      var b := AnotherSplit(a, sep);
    } else {
      forall b | Join(b, sep) == Join(a, sep) ensures b == a { JoinInjective(a, b, sep); }
    }
  }
}
