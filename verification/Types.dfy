/**
 The vocabulary shared by every store and by the engine: operations, stored results, records and the
 answers a store may give. Times are epoch milliseconds read from the caller's clock.
 */
module Types {

  datatype Option<+T> = None | Some(value: T)

  type byte = b: int | 0 <= b < 256

  type Header = (string, string)

  /** The identity a record is filed under. */
  datatype Id = Id(scope: string, key: string)

  datatype Operation = Operation(id: Id, fingerprint: string)

  datatype RecordState = InFlight | Completed

  datatype Kind = Http | Message

  datatype ErrorInfo = ErrorInfo(name: string, message: string)

  /** What a handler produced; every field but the kind may be absent. */
  datatype StoredResult = StoredResult(
    kind: Kind,
    status: Option<int>,
    headers: Option<seq<Header>>,
    body: Option<seq<byte>>,
    outcome: Option<bool>,
    error: Option<ErrorInfo>)

  /** What `complete` receives: the whole result, or its status and headers when the body was over the cap. */
  datatype Payload =
    | Whole(result: StoredResult)
    | Omitted(kind: Kind, status: Option<int>, headers: Option<seq<Header>>)
  {
    /** The result a record holds after this payload was stored. */
    function Stored(): StoredResult {
      match this
      case Whole(r) => r
      case Omitted(k, s, h) => StoredResult(k, s, h, None, None, None)
    }
  }

  datatype Record = Record(
    id: Id,
    fingerprint: string,
    state: RecordState,
    fence: int,
    leaseUntil: int,
    createdAt: int,
    expiresAt: int,
    result: Option<StoredResult>,
    resultOmitted: bool)

  datatype BeginOptions = BeginOptions(leaseMs: int, ttlMs: int, now: int)

  datatype BeginOutcome =
    | Acquired(fence: int)
    | Busy(leaseUntil: int)
    | Replay(record: Record)
    | Mismatch(record: Record)

  datatype CompleteStatus = Ok | StaleFence | NotFound

  function Get<K, V>(m: map<K, V>, k: K): Option<V> {
    if k in m then Some(m[k]) else None
  }

  /** The map with the entry for `k` set, or removed when `v` is None. */
  function Put<K, V>(m: map<K, V>, k: K, v: Option<V>): map<K, V> {
    match v
    case Some(x) => m[k := x]
    case None => m - {k}
  }

  lemma PutGet<K, V>(m: map<K, V>, k: K)
    ensures Put(m, k, Get(m, k)) == m
  {
  }

  /** The first occurrence of a character, or the length. */
  function IndexOf(s: string, c: char): (i: nat)
    ensures i <= |s| && (i < |s| ==> s[i] == c) && forall j :: 0 <= j < i ==> s[j] != c
  {
    if s == [] || s[0] == c then 0 else 1 + IndexOf(s[1..], c)
  }
}
