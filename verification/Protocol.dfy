/**
 The claim protocol over whole runs: any number of executions of the engine on one shared record map, each
 call with its own clock reading, with crashes, lost replies, purges and backend sweeps between any two
 steps. Ghost state gives every row a lifetime, from physical insertion to physical removal.
 */
module Protocol {
  import opened Types
  import Contract
  import opened Engine

  /** What happened to a store call: answered, applied but the reply was lost, or failed before any effect. */
  datatype Fate = Delivered | Lost | Refused

  /** One acquire; its fence is its position (from 1) in the log of its row's lifetime. */
  datatype Acquire = Acquire(exec: nat, fingerprint: string, at: int, leaseUntil: int, expiresAt: int)
  {
    /** The claim is exclusive from `at` up to here, on the clock readings passed to the store. */
    function End(): int { if leaseUntil < expiresAt then leaseUntil else expiresAt }
  }

  /** Everything about one id: its row, the acquires of the row's lifetime, and those of ended lifetimes. */
  datatype Slot = Slot(row: Option<Record>, current: seq<Acquire>, past: seq<seq<Acquire>>)
  {
    function Life(): nat { |past| }

    function Log(life: nat): seq<Acquire> {
      if life < |past| then past[life] else if life == |past| then current else []
    }

    function Acquired(r: Record, a: Acquire): Slot { this.(row := Some(r), current := current + [a]) }

    /** A write that is not an acquire, or a physical removal, which ends the lifetime. */
    function Written(r: Option<Record>): Slot {
      if r.None? && row.Some? then Slot(None, [], past + [current]) else this.(row := r)
    }
  }

  datatype Claim = Claim(life: nat, fence: int)

  datatype Call =
    | CompleteCall(fence: int, payload: Payload, now: int, reply: Reply<CompleteStatus>)
    | AbandonCall(fence: int, reply: Reply<CompleteStatus>)

  datatype Exec = Exec(
    op: Operation,
    policy: Policy,
    pc: Pc,
    crashed: bool,
    claim: Option<Claim>,
    settles: seq<Call>)

  datatype Sys = Sys(slots: map<Id, Slot>, execs: map<nat, Exec>)
  {
    function At(k: Id): Slot { if k in slots then slots[k] else Slot(None, [], []) }
  }

  const INIT := Sys(map[], map[])

  /** What one execution does next: a store call, the end of its handler, or a crash. */
  datatype Step =
    | CallBegin(now: int, fate: Fate)
    | HandlerEnds(reply: Reply<StoredResult>)
    | CallComplete(now: int, fate: Fate)
    | CallAbandon(fate: Fate)
    | Crash

  datatype Event =
    | Start(e: nat, op: Operation, policy: Policy)
    | Do(e: nat, step: Step)
    | Purge(now: int)
    | Sweep(id: Id)

  predicate Ready(x: Exec, step: Step) {
    && !x.crashed
    && match step
       case CallBegin(_, _) => x.pc.AwaitBegin?
       case HandlerEnds(_) => x.pc.AwaitRun?
       case CallComplete(_, _) => x.pc.AwaitComplete?
       case CallAbandon(_) => x.pc.AwaitAbandon?
       case Crash => true
  }

  predicate Enabled(s: Sys, ev: Event) {
    match ev
    case Start(e, _, _) => e !in s.execs
    case Do(e, step) => e in s.execs && Ready(s.execs[e], step)
    case _ => true
  }

  /** At every await everything may happen: any clock, fate and end of the handler, and a crash at any time. */
  lemma Unrestricted(x: Exec, now: int, fate: Fate, reply: Reply<StoredResult>)
    requires !x.crashed
    ensures Ready(x, CallBegin(now, fate)) <==> x.pc.AwaitBegin?
    ensures Ready(x, HandlerEnds(reply)) <==> x.pc.AwaitRun?
    ensures Ready(x, CallComplete(now, fate)) <==> x.pc.AwaitComplete?
    ensures Ready(x, CallAbandon(fate)) <==> x.pc.AwaitAbandon?
    ensures Ready(x, Crash)
  {
  }

  /** A crashed execution does nothing any more. */
  lemma CrashEnds(s: Sys, e: nat, step: Step)
    requires Enabled(s, Do(e, Crash))
    ensures var t := Apply(s, Do(e, Crash)); Apply(t, Do(e, step)) == t && t.execs[e].pc == s.execs[e].pc
  {
  }

  function Answer<T>(fate: Fate, value: T): Reply<T> {
    if fate == Delivered then Answered(value) else Failed
  }

  // Each call of an execution acts on the slot of its id and on the execution itself.

  function Options(x: Exec, now: int): BeginOptions { BeginOptions(x.policy.leaseMs, x.policy.ttlMs, now) }

  function Entry(x: Exec, e: nat, now: int): Acquire {
    Acquire(e, x.op.fingerprint, now, now + x.policy.leaseMs, now + x.policy.ttlMs)
  }

  function BeginSlot(sl: Slot, x: Exec, e: nat, now: int, fate: Fate): Slot {
    var (out, row) := Contract.Begin(sl.row, x.op, Options(x, now));
    if out.Acquired? && fate != Refused then sl.Acquired(row.value, Entry(x, e, now)) else sl
  }

  function BeginExec(sl: Slot, x: Exec, now: int, fate: Fate): Exec {
    var out := Contract.Begin(sl.row, x.op, Options(x, now)).0;
    x.(pc := AfterBegin(x.policy, Answer(fate, out)),
       claim := if out.Acquired? && fate == Delivered then Some(Claim(sl.Life(), out.fence)) else None)
  }

  function CompleteSlot(sl: Slot, x: Exec, now: int, fate: Fate): Slot
    requires x.pc.AwaitComplete?
  {
    if fate == Refused then sl
    else sl.Written(Contract.Complete(sl.row, x.pc.fence, x.pc.payload, now).1)
  }

  function CompleteExec(sl: Slot, x: Exec, now: int, fate: Fate): Exec
    requires x.pc.AwaitComplete?
  {
    var reply := Answer(fate, Contract.Complete(sl.row, x.pc.fence, x.pc.payload, now).0);
    x.(pc := AfterComplete(x.pc.pending, reply),
       settles := x.settles + [CompleteCall(x.pc.fence, x.pc.payload, now, reply)])
  }

  function AbandonSlot(sl: Slot, x: Exec, fate: Fate): Slot
    requires x.pc.AwaitAbandon?
  {
    if fate == Refused then sl else sl.Written(Contract.Abandon(sl.row, x.pc.fence).1)
  }

  function AbandonExec(sl: Slot, x: Exec, fate: Fate): Exec
    requires x.pc.AwaitAbandon?
  {
    var reply := Answer(fate, Contract.Abandon(sl.row, x.pc.fence).0);
    x.(pc := AfterAbandon(x.pc.result), settles := x.settles + [AbandonCall(x.pc.fence, reply)])
  }

  function PurgeSlot(sl: Slot, now: int): Slot {
    sl.Written(Contract.Read(sl.row, now))
  }

  function StepSlot(sl: Slot, x: Exec, e: nat, step: Step): Slot
    requires Ready(x, step)
  {
    match step
    case CallBegin(now, fate) => BeginSlot(sl, x, e, now, fate)
    case CallComplete(now, fate) => CompleteSlot(sl, x, now, fate)
    case CallAbandon(fate) => AbandonSlot(sl, x, fate)
    case _ => sl
  }

  function StepExec(sl: Slot, x: Exec, step: Step): Exec
    requires Ready(x, step)
  {
    match step
    case CallBegin(now, fate) => BeginExec(sl, x, now, fate)
    case HandlerEnds(reply) => x.(pc := AfterRun(x.policy, x.pc.fence, x.pc.claimed, reply))
    case CallComplete(now, fate) => CompleteExec(sl, x, now, fate)
    case CallAbandon(fate) => AbandonExec(sl, x, fate)
    case Crash => x.(crashed := true)
  }

  /** One event; one that is not enabled leaves the system as it is, so every sequence is a run. */
  function Apply(s: Sys, ev: Event): Sys {
    if !Enabled(s, ev) then s
    else match ev
         case Start(e, op, policy) => s.(execs := s.execs[e := Exec(op, policy, AwaitBegin, false, None, [])])
         case Do(e, step) =>
           var x := s.execs[e];
           var sl := s.At(x.op.id);
           Sys(s.slots[x.op.id := StepSlot(sl, x, e, step)], s.execs[e := StepExec(sl, x, step)])
         case Purge(now) => s.(slots := map k | k in s.slots :: PurgeSlot(s.slots[k], now))
         case Sweep(k) => s.(slots := s.slots[k := s.At(k).Written(None)])
  }

  function Run(s: Sys, evs: seq<Event>): Sys
    decreases |evs|
  {
    if evs == [] then s else Run(Apply(s, evs[0]), evs[1..])
  }

  // ----- the invariant of every run

  /** A later acquire of the same lifetime was taken at or after the end of the one before it. */
  ghost predicate LogOk(log: seq<Acquire>) {
    forall i, j :: 0 <= i < j < |log| && j == i + 1 ==> log[i].End() <= log[j].at
  }

  /** A record in flight has no result yet. */
  predicate Clean(r: Record) { r.state == InFlight ==> r.result == None && !r.resultOmitted }

  /** The row is what the last acquire wrote, and its fence counts the acquires of this lifetime. */
  ghost predicate SlotOk(sl: Slot) {
    && (sl.row.None? <==> sl.current == [])
    && (sl.row.Some? ==>
          && sl.row.value.fence == |sl.current| && Clean(sl.row.value)
          && var a := sl.current[|sl.current| - 1];
             && sl.row.value.fingerprint == a.fingerprint && sl.row.value.createdAt == a.at
             && sl.row.value.leaseUntil == a.leaseUntil && sl.row.value.expiresAt == a.expiresAt)
    && LogOk(sl.current)
    && (forall l :: 0 <= l < |sl.past| ==> LogOk(sl.past[l]))
  }

  /** Lifetimes are only added, and the log of a lifetime is only extended. */
  ghost predicate Grows(sl: Slot, sl': Slot) {
    && sl.Life() <= sl'.Life()
    && forall l: nat :: l <= sl.Life() ==> sl.Log(l) <= sl'.Log(l)
  }

  /** A held claim is entry `fence` of the log of its lifetime, and that entry is this execution's. */
  ghost predicate ClaimOk(sl: Slot, x: Exec, e: nat) {
    x.claim.Some? ==>
      && x.claim.value.life <= sl.Life()
      && var log := sl.Log(x.claim.value.life);
         && 1 <= x.claim.value.fence <= |log|
         && log[x.claim.value.fence - 1].exec == e
         && log[x.claim.value.fence - 1].fingerprint == x.op.fingerprint
  }

  /** Control state, claim and settling calls fit together. */
  ghost predicate ExecOk(x: Exec) {
    && (x.claim.None? ==> x.settles == [])
    && (x.pc.AwaitBegin? ==> x.claim.None?)
    && (x.pc.AwaitRun? ==> x.settles == [] && x.pc.claimed == x.claim.Some?)
    && ((x.pc.AwaitRun? && x.pc.claimed) || x.pc.AwaitAbandon? || x.pc.AwaitComplete? ==>
          x.settles == [] && x.claim.Some? && x.claim.value.fence == x.pc.fence)
    && (x.pc.AwaitComplete? ==> x.pc.payload == PayloadFor(x.policy, x.pc.pending))
    && (x.pc.Threw? && x.pc.cause == ByPredicate ==> x.claim.Some? && x.settles == [])
    && (x.pc.Threw? && x.pc.cause == ByHandler && x.claim.Some? ==> |x.settles| == 1 && x.settles[0].AbandonCall?)
    && (x.pc.Done? && x.claim.Some? ==> |x.settles| == 1 && x.pc.answer.Executed?)
    && |x.settles| <= 1
    && (|x.settles| == 1 ==> SettleOk(x, x.settles[0]))
    && (x.pc.Done? && x.pc.answer.Executed? && x.pc.answer.stored ==> |x.settles| == 1 && x.settles[0].CompleteCall?)
  }

  /** The one settling call carries the claim's fence and decides what the execution reports. */
  ghost predicate SettleOk(x: Exec, c: Call) {
    && x.claim.Some? && c.fence == x.claim.value.fence
    && (x.pc.Done? || x.pc.Threw?)
    && (c.CompleteCall? ==>
          && x.pc.Done? && x.pc.answer.Executed?
          && c.payload == PayloadFor(x.policy, x.pc.answer.result)
          && x.pc.answer.stored == (c.reply == Answered(Ok)))
  }

  ghost predicate Inv(s: Sys) {
    && (forall k :: k in s.slots ==> SlotOk(s.slots[k]))
    && (forall e :: e in s.execs ==> ExecOk(s.execs[e]))
    && (forall e :: e in s.execs ==> ClaimOk(s.At(s.execs[e].op.id), s.execs[e], e))
  }

  /** The fields an acquire writes and no later call of the lifetime changes. */
  predicate SameClaim(r: Record, q: Record) {
    && r.fingerprint == q.fingerprint && r.fence == q.fence
    && r.createdAt == q.createdAt && r.leaseUntil == q.leaseUntil && r.expiresAt == q.expiresAt
  }

  lemma SlotWritten(sl: Slot, r: Option<Record>)
    requires SlotOk(sl)
    requires r.Some? ==> sl.row.Some? && SameClaim(r.value, sl.row.value) && Clean(r.value)
    ensures SlotOk(sl.Written(r)) && Grows(sl, sl.Written(r))
  {
  }

  lemma SlotStep(sl: Slot, x: Exec, e: nat, step: Step)
    requires SlotOk(sl) && Ready(x, step)
    ensures SlotOk(StepSlot(sl, x, e, step)) && Grows(sl, StepSlot(sl, x, e, step))
  {
    match step
    case CallComplete(now, _) => SlotWritten(sl, Contract.Complete(sl.row, x.pc.fence, x.pc.payload, now).1);
    case CallAbandon(_) => SlotWritten(sl, Contract.Abandon(sl.row, x.pc.fence).1);
    case _ =>
  }

  lemma ExecStep(sl: Slot, x: Exec, e: nat, step: Step)
    requires SlotOk(sl) && ExecOk(x) && ClaimOk(sl, x, e) && Ready(x, step)
    ensures ExecOk(StepExec(sl, x, step))
    ensures ClaimOk(StepSlot(sl, x, e, step), StepExec(sl, x, step), e)
  {
    SlotStep(sl, x, e, step);
  }

  lemma ClaimGrows(sl: Slot, sl': Slot, x: Exec, e: nat)
    requires ClaimOk(sl, x, e) && Grows(sl, sl')
    ensures ClaimOk(sl', x, e)
  {
    if x.claim.Some? { assert sl.Log(x.claim.value.life) <= sl'.Log(x.claim.value.life); }
  }

  lemma InvDo(s: Sys, e: nat, step: Step)
    requires Inv(s) && Enabled(s, Do(e, step))
    ensures Inv(Apply(s, Do(e, step)))
  {
    var s' := Apply(s, Do(e, step));
    var x := s.execs[e];
    var sl := s.At(x.op.id);
    SlotStep(sl, x, e, step);
    ExecStep(sl, x, e, step);
    forall d | d in s'.execs ensures ClaimOk(s'.At(s'.execs[d].op.id), s'.execs[d], d) {
      if d != e && s.execs[d].op.id == x.op.id { ClaimGrows(sl, StepSlot(sl, x, e, step), s.execs[d], d); }
    }
  }

  lemma InvSlots(s: Sys, slots: map<Id, Slot>)
    requires Inv(s)
    requires forall k :: k in slots ==> SlotOk(slots[k])
    requires forall k :: k in s.slots ==> k in slots && Grows(s.slots[k], slots[k])
    ensures Inv(s.(slots := slots))
  {
    var s' := s.(slots := slots);
    forall d | d in s'.execs ensures ClaimOk(s'.At(s'.execs[d].op.id), s'.execs[d], d) {
      var k := s.execs[d].op.id;
      if k in s.slots { ClaimGrows(s.slots[k], slots[k], s.execs[d], d); }
    }
  }

  lemma InvStep(s: Sys, ev: Event)
    requires Inv(s)
    ensures Inv(Apply(s, ev))
  {
    if Enabled(s, ev) {
      match ev
      case Start(e, op, policy) =>
      case Do(e, step) => InvDo(s, e, step);
      case Purge(now) =>
        forall k | k in s.slots { SlotWritten(s.slots[k], Contract.Read(s.slots[k].row, now)); }
        InvSlots(s, Apply(s, ev).slots);
      case Sweep(k) =>
        SlotWritten(s.At(k), None);
        InvSlots(s, Apply(s, ev).slots);
    }
  }

  lemma {:induction false} InvRun(s: Sys, evs: seq<Event>)
    requires Inv(s)
    ensures Inv(Run(s, evs))
    decreases |evs|
  {
    if evs != [] {
      InvStep(s, evs[0]);
      InvRun(Apply(s, evs[0]), evs[1..]);
    }
  }
}
