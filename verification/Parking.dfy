/**
 Duplicates that meet a running claim: the queue wrappers (packages/anyq/src/idempotent.ts, go/anyqmw/middleware.go)
 park them for the rest of the lease, the HTTP bridge (packages/core/src/http/run.ts) tells the client when to retry.
 A store measures time in ticks: milliseconds in TypeScript, nanoseconds in Go.
 */
module Parking {
  import opened Types
  import opened Contract
  import opened Engine

  function Max(a: int, b: int): int { if a < b then b else a }

  /** A duplicate met a claim on `row`; its delay is computed from a later reading of the clock. */
  datatype Meeting = Meeting(row: Record, op: Operation, options: BeginOptions, later: int)

  predicate Met(m: Meeting) {
    Begin(Some(m.row), m.op, m.options).0 == Busy(m.row.leaseUntil) && m.options.now <= m.later
  }

  /**
   The successive meetings of one duplicate that comes back no earlier than it was told to, on the same clock.
   What happens to the record in between is arbitrary: each meeting carries the row it found.
   */
  predicate Redelivered(ms: seq<Meeting>, delay: Meeting -> int) {
    && (forall i :: 0 <= i < |ms| ==> Met(ms[i]))
    && (forall i :: 0 <= i < |ms| - 1 ==> ms[i].later + delay(ms[i]) <= ms[i + 1].options.now)
  }

  /** The delay always reaches the end of the lease that was met. */
  ghost predicate Outlasts(delay: Meeting -> int) {
    forall m :: Met(m) ==> delay(m) >= 1 && m.later + delay(m) >= m.row.leaseUntil
  }

  /** Coming back takes time, however often. */
  lemma {:induction false} ComesLater(ms: seq<Meeting>, delay: Meeting -> int, i: nat, j: nat)
    requires Redelivered(ms, delay) && i < j < |ms|
    requires forall k :: 0 <= k < |ms| ==> delay(ms[k]) >= 1
    ensures ms[i].later + delay(ms[i]) <= ms[j].options.now
    decreases j
  {
    if i + 1 < j {
      ComesLater(ms, delay, i, j - 1);
      assert ms[j - 1].later + delay(ms[j - 1]) <= ms[j - 1 + 1].options.now;
      assert Met(ms[j - 1]);
    } else {
      assert ms[i].later + delay(ms[i]) <= ms[i + 1].options.now;
    }
  }

  /** A duplicate whose delays outlast the lease meets a later lease every time. */
  lemma MeetsOnce(ms: seq<Meeting>, delay: Meeting -> int, i: nat, j: nat)
    requires Outlasts(delay) && Redelivered(ms, delay) && i < j < |ms|
    ensures ms[i].row.leaseUntil < ms[j].row.leaseUntil
  {
    assert forall k :: 0 <= k < |ms| ==> Met(ms[k]);
    ComesLater(ms, delay, i, j);
  }

  // ----- TypeScript

  function TypeScriptDelay(m: Meeting): int { Max(1, m.row.leaseUntil - m.later) }

  /** The least positive delay that reaches the end of the lease. */
  lemma TypeScriptLeast(m: Meeting, delay: int)
    ensures delay >= TypeScriptDelay(m) <==> delay >= 1 && m.later + delay >= m.row.leaseUntil
  {
  }

  /** A TypeScript duplicate never meets the same lease twice. */
  lemma TypeScriptParksOnce(ms: seq<Meeting>, i: nat, j: nat)
    requires Redelivered(ms, TypeScriptDelay) && i < j < |ms|
    ensures ms[i].row.leaseUntil < ms[j].row.leaseUntil
  {
    MeetsOnce(ms, TypeScriptDelay, i, j);
  }

  // ----- Retry-After

  /** Math.ceil of a quotient: Dafny's division rounds down for a positive divisor. */
  function CeilDiv(a: int, b: int): int requires b > 0 { -((-a) / b) }

  function RetryAfterSeconds(leaseUntil: int, now: int): int { Max(1, CeilDiv(leaseUntil - now, 1000)) }

  /** The least positive number of whole seconds that reaches the end of the lease. */
  lemma RetryAfterLeast(leaseUntil: int, now: int, s: int)
    ensures (s >= RetryAfterSeconds(leaseUntil, now)) <==> (s >= 1 && now + 1000 * s >= leaseUntil)
  {
  }

  function RetryAfterDelay(m: Meeting): int { 1000 * RetryAfterSeconds(m.row.leaseUntil, m.later) }

  /** A client that honours Retry-After meets a lease at most once. */
  lemma RetryAfterMeetsOnce(ms: seq<Meeting>, i: nat, j: nat)
    requires Redelivered(ms, RetryAfterDelay) && i < j < |ms|
    ensures ms[i].row.leaseUntil < ms[j].row.leaseUntil
  {
    forall m | Met(m) ensures RetryAfterDelay(m) >= 1 && m.later + RetryAfterDelay(m) >= m.row.leaseUntil {
      RetryAfterLeast(m.row.leaseUntil, m.later, RetryAfterSeconds(m.row.leaseUntil, m.later));
    }
    MeetsOnce(ms, RetryAfterDelay, i, j);
  }

  // ----- Go

  const MILLISECOND := 1_000_000
  const MAX_DURATION := 0x7fff_ffff_ffff_ffff

  /** Time.Sub: a difference no Duration holds becomes the nearest one that does. */
  function Sub(a: int, b: int): int {
    if a - b > MAX_DURATION then MAX_DURATION else Max(a - b, -MAX_DURATION - 1)
  }

  /** Go's integer division, toward zero. */
  function Quot(a: int, b: int): int requires b > 0 { if a >= 0 then a / b else -((-a) / b) }

  function GoDelayMs(leaseUntil: int, now: int): int { Max(1, Quot(Sub(leaseUntil, now), MILLISECOND)) }

  function GoDelay(m: Meeting): int { MILLISECOND * GoDelayMs(m.row.leaseUntil, m.later) }

  /** The rest of the lease is a Duration, as it is for every lease that was granted earlier on this clock. */
  predicate Fits(m: Meeting) { m.row.leaseUntil - m.later <= 9_223_372_036_854_775_807 }

  /**
   The Go delay falls short of the lease exactly when the floor loses a fraction of more than a millisecond, or
   the subtraction saturates; without saturation it falls short by less than a millisecond.
   */
  lemma GoFallsShort(m: Meeting)
    requires Met(m)
    ensures var left := m.row.leaseUntil - m.later;
            && (m.later + GoDelay(m) < m.row.leaseUntil <==>
                left > 1_000_000 && (left % 1_000_000 != 0 || !Fits(m)))
            && (Fits(m) ==> m.row.leaseUntil < m.later + GoDelay(m) + 1_000_000)
  {
  }

  /** It is a whole number of milliseconds, at least one, and not longer than the lease unless it is the one. */
  lemma GoBounds(m: Meeting)
    ensures GoDelay(m) >= 1_000_000 && GoDelay(m) % 1_000_000 == 0
    ensures GoDelay(m) == 1_000_000 || m.later + GoDelay(m) <= m.row.leaseUntil
  {
  }

  /** A Go duplicate parks at most twice per lease: of any three meetings, the last is with a later lease. */
  lemma GoParksTwice(ms: seq<Meeting>, i: nat, j: nat, k: nat)
    requires Redelivered(ms, GoDelay) && i < j < k < |ms| && Fits(ms[i])
    ensures ms[i].row.leaseUntil < ms[k].row.leaseUntil
  {
    ComesLater(ms, GoDelay, i, j);
    ComesLater(ms, GoDelay, j, k);
    assert Met(ms[i]) && Met(ms[j]) && Met(ms[k]);
    GoFallsShort(ms[i]);
  }

  /** Twice does happen. */
  lemma GoParksAgain(op: Operation)
    ensures var row := FreshRecord(op, BeginOptions(1_500_000, 2_000_000, 0), 1);
            var at := (t: int) => Meeting(row, op, BeginOptions(1_500_000, 2_000_000, t), t);
            Redelivered([at(0), at(1_000_000)], GoDelay) && Fits(at(0)) && Fits(at(1_000_000))
  {
    var row := FreshRecord(op, BeginOptions(1_500_000, 2_000_000, 0), 1);
    assert GoDelay(Meeting(row, op, BeginOptions(1_500_000, 2_000_000, 0), 0)) == 1_000_000;
  }

  // ----- the wrapper

  class InFlightError {
    const leaseUntil: int
    const delayMs: int
    var translated: bool

    constructor (leaseUntil: int, delayMs: int)
      ensures this.leaseUntil == leaseUntil && this.delayMs == delayMs && !translated
    {
      this.leaseUntil, this.delayMs, translated := leaseUntil, delayMs, false;
    }
  }

  /** How a delivery ends: acknowledged, or with the error thrown to the consumer. */
  datatype Delivery = Acked | ThrewInFlight(error: InFlightError) | ThrewMismatch(record: Record) | ThrewOther

  datatype Decision = Park(delayMs: int) | DeadLetter(reason: string) | Delegated

  function Marked(d: Delivery): set<InFlightError> {
    match d
    case ThrewInFlight(error) => {error}
    case _ => {}
  }

  /** The strategy: an in-flight error parks and is marked, a mismatch is dead-lettered, the rest is delegated. */
  method Decide(d: Delivery) returns (decision: Decision)
    requires !d.Acked?
    modifies Marked(d)
    ensures decision == match d
                        case ThrewInFlight(error) => Park(error.delayMs)
                        case ThrewMismatch(_) => DeadLetter("fingerprint-mismatch")
                        case _ => Delegated
    ensures d.ThrewInFlight? ==> d.error.translated
  {
    match d {
      case ThrewInFlight(error) =>
        error.translated := true;
        return Park(error.delayMs);
      case ThrewMismatch(_) => return DeadLetter("fingerprint-mismatch");
      case _ => return Delegated;
    }
  }

  /** What `idempotent` keeps across deliveries; `warnings` counts calls of the logger. */
  class Wrapper {
    const ackInFlight: bool
    var pending: InFlightError?
    var warned: bool
    var warnings: nat

    /** At most one warning was ever given, and `warned` records it. */
    predicate Valid() reads this { warnings == if warned then 1 else 0 }

    constructor (ackInFlight: bool)
      ensures Valid() && !warned && pending == null && this.ackInFlight == ackInFlight
    {
      this.ackInFlight, pending, warned, warnings := ackInFlight, null, false, 0;
    }

    /** The start of a delivery: warns when the last reported error was never turned into a decision. */
    method Enter()
      requires Valid()
      modifies this
      ensures Valid() && pending == null
      ensures warned == (old(warned) || (old(pending) != null && !old(pending.translated)))
    {
      var previous := pending;
      pending := null;
      if previous != null && !previous.translated && !warned {
        warned := true;
        warnings := warnings + 1;
      }
    }

    /** The end of a delivery, once the engine has answered; other deliveries may have entered meanwhile. */
    method Answer(outcome: ExecuteResult, clock: int) returns (d: Delivery)
      requires Valid()
      modifies this
      ensures Valid() && warned == old(warned)
      ensures d.ThrewInFlight? <==> outcome.Conflict? && !ackInFlight
      ensures d.ThrewInFlight? ==>
                && fresh(d.error) && pending == d.error && !d.error.translated
                && d.error.leaseUntil == outcome.leaseUntil
                && d.error.delayMs == (if outcome.leaseUntil > clock then outcome.leaseUntil - clock else 1)
      ensures !d.ThrewInFlight? ==> pending == old(pending)
      ensures d.Acked? <==> outcome.Executed? || outcome.Replayed? || (outcome.Conflict? && ackInFlight)
      ensures outcome.Mismatched? ==> d == ThrewMismatch(outcome.record)
    {
      match outcome {
        case Executed(_, _) => return Acked;
        case Replayed(_) => return Acked;
        case Conflict(leaseUntil) =>
          if ackInFlight { return Acked; }
          var error := new InFlightError(leaseUntil, Max(1, leaseUntil - clock));
          pending := error;
          return ThrewInFlight(error);
        case Mismatched(record) => return ThrewMismatch(record);
        case StoreError => return ThrewOther;
      }
    }
  }
}
