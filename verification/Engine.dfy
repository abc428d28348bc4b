/**
 The engine (`execute` in packages/core/src/engine.ts). The async function is a control state per await and
 one transition per answer, so that any number of executions, other clients, crashes and lost replies can
 be interleaved between the awaits.
 */
module Engine {
  import opened Types

  /** What the caller's `storeResult` predicate does with a result; it is user code and may throw. */
  datatype Verdict = Keep | Drop | Raise

  datatype Policy = Policy(
    leaseMs: int,
    ttlMs: int,
    maxResultBytes: int,
    storeResult: StoredResult -> Verdict,
    failOpen: bool)

  /** Message outcomes and HTTP results below 500; a missing status counts as 500. */
  function DefaultStoreResult(r: StoredResult): Verdict {
    if r.kind == Message || (r.status.Some? && r.status.value < 500) then Keep else Drop
  }

  function ResultSize(r: StoredResult): nat {
    if r.body.Some? then |r.body.value| else 0
  }

  function OmitBody(r: StoredResult): Payload { Omitted(r.kind, r.status, r.headers) }

  function PayloadFor(policy: Policy, r: StoredResult): Payload {
    if ResultSize(r) > policy.maxResultBytes then OmitBody(r) else Whole(r)
  }

  /** The omitted form keeps kind, status and headers, and only those; the body's size alone decides. */
  lemma OmittedForm(policy: Policy, r: StoredResult)
    ensures OmitBody(r).Omitted? && OmitBody(r).Stored() == StoredResult(r.kind, r.status, r.headers, None, None, None)
    ensures PayloadFor(policy, r) == if (if r.body.Some? then |r.body.value| else 0) > policy.maxResultBytes
                                     then OmitBody(r) else Whole(r)
  {
  }

  datatype ExecuteResult =
    | Executed(result: StoredResult, stored: bool)
    | Replayed(record: Record)
    | Conflict(leaseUntil: int)
    | Mismatched(record: Record)
    | StoreError

  /** An awaited call either answers or throws. */
  datatype Reply<+T> = Answered(value: T) | Failed

  /** Why an execution rejected: the handler threw, or the caller's `storeResult` did. */
  datatype Cause = ByHandler | ByPredicate

  datatype Pc =
    | AwaitBegin
    | AwaitRun(fence: int, claimed: bool)
    | AwaitAbandon(fence: int, result: Option<StoredResult>)
    | AwaitComplete(fence: int, pending: StoredResult, payload: Payload)
    | Done(answer: ExecuteResult)
    | Threw(cause: Cause)

  function AfterBegin(policy: Policy, reply: Reply<BeginOutcome>): Pc {
    match reply
    case Failed => if policy.failOpen then AwaitRun(0, false) else Done(StoreError)
    case Answered(Replay(rec)) => Done(Replayed(rec))
    case Answered(Busy(until)) => Done(Conflict(until))
    case Answered(Mismatch(rec)) => Done(Mismatched(rec))
    case Answered(Acquired(fence)) => AwaitRun(fence, true)
  }

  function AfterRun(policy: Policy, fence: int, claimed: bool, reply: Reply<StoredResult>): Pc {
    match reply
    case Failed => if claimed then AwaitAbandon(fence, None) else Threw(ByHandler)
    case Answered(r) =>
      if !claimed then Done(Executed(r, false))
      else match policy.storeResult(r)
           case Raise => Threw(ByPredicate)
           case Drop => AwaitAbandon(fence, Some(r))
           case Keep => AwaitComplete(fence, r, PayloadFor(policy, r))
  }

  /** An abandon that fails is swallowed; either way the execution goes on to its own end. */
  function AfterAbandon(result: Option<StoredResult>): Pc {
    match result
    case None => Threw(ByHandler)
    case Some(r) => Done(Executed(r, false))
  }

  function AfterComplete(result: StoredResult, reply: Reply<CompleteStatus>): Pc {
    Done(Executed(result, reply == Answered(Ok)))
  }
}
