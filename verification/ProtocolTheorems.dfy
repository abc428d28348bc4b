/**
 What the claim protocol promises, proved of every run: fencing, lease exclusion, stability of completed
 records, that every claim is discharged, and what a stored answer is worth. Two concrete runs show promises broken.
 */
module ProtocolTheorems {
  import opened Types
  import Contract
  import opened Engine
  import opened Protocol

  // ----- fencing

  /** In every run, a row is there exactly when its lifetime has acquires, and its fence is their number. */
  lemma FenceCounts(evs: seq<Event>, k: Id)
    ensures var sl := Run(INIT, evs).At(k);
            && (sl.row.Some? <==> sl.current != [])
            && (sl.row.Some? ==> sl.row.value.fence == |sl.current|)
  {
    InvRun(INIT, evs);
  }

  /** Within one lifetime no two executions hold the same fence. */
  lemma FencesDistinct(evs: seq<Event>, d: nat, e: nat)
    requires var s := Run(INIT, evs);
             && d in s.execs && e in s.execs && d != e
             && s.execs[d].op.id == s.execs[e].op.id
             && s.execs[d].claim.Some? && s.execs[e].claim.Some?
             && s.execs[d].claim.value.life == s.execs[e].claim.value.life
    ensures var s := Run(INIT, evs);
            s.execs[d].claim.value.fence != s.execs[e].claim.value.fence
  {
    InvRun(INIT, evs);
    var s := Run(INIT, evs);
    assert ClaimOk(s.At(s.execs[d].op.id), s.execs[d], d);
    assert ClaimOk(s.At(s.execs[e].op.id), s.execs[e], e);
  }

  /** The claim is the latest of the row that is there now. */
  predicate Latest(sl: Slot, x: Exec) {
    && x.claim.Some? && sl.row.Some?
    && x.claim.value.life == sl.Life()
    && x.claim.value.fence == sl.row.value.fence
  }

  /** The row is one that a settling call with this holder's fence writes or deletes. */
  predicate Hits(sl: Slot, x: Exec, step: Step) {
    && (step.CallComplete? || step.CallAbandon?)
    && step.fate != Refused
    && x.claim.Some? && sl.row.Some?
    && sl.row.value.fence == x.claim.value.fence
    && sl.row.value.state == InFlight
    && (step.CallComplete? ==> sl.row.value.expiresAt > step.now)
  }

  lemma LateSlot(sl: Slot, x: Exec, e: nat, step: Step)
    requires SlotOk(sl) && ExecOk(x) && ClaimOk(sl, x, e) && Ready(x, step) && !Latest(sl, x)
    requires step.CallComplete? || step.CallAbandon?
    ensures StepSlot(sl, x, e, step) != sl <==> Hits(sl, x, step)
    ensures Hits(sl, x, step) ==> x.claim.value.life < sl.Life()
  {
  }

  /**
   Fencing in every run: a settling call of a holder that is not, or no longer, the latest changes a row exactly
   when the row belongs to another lifetime that is in flight at the same fence (and, for a complete, not expired).
   */
  lemma LateSettleExact(evs: seq<Event>, e: nat, step: Step)
    requires var s := Run(INIT, evs);
             && Enabled(s, Do(e, step)) && (step.CallComplete? || step.CallAbandon?)
             && !Latest(s.At(s.execs[e].op.id), s.execs[e])
    ensures var s := Run(INIT, evs);
            var x := s.execs[e];
            var sl := s.At(x.op.id);
            && (Apply(s, Do(e, step)).slots != s.slots <==> Hits(sl, x, step))
            && (Hits(sl, x, step) ==> x.claim.value.life < sl.Life())
  {
    InvRun(INIT, evs);
    var s := Run(INIT, evs);
    var x := s.execs[e];
    var sl := s.At(x.op.id);
    assert ClaimOk(sl, x, e) && ExecOk(x) && SlotOk(sl);
    assert x.op.id in s.slots;
    LateSlot(sl, x, e, step);
    var slots := Apply(s, Do(e, step)).slots;
    assert slots == s.slots[x.op.id := StepSlot(sl, x, e, step)];
    assert slots[x.op.id] == StepSlot(sl, x, e, step);
  }

  /** And it is told `ok`, which the engine reports as stored, exactly when such a row is there, completed or not. */
  lemma LateOkExact(evs: seq<Event>, e: nat, step: Step)
    requires var s := Run(INIT, evs);
             && Enabled(s, Do(e, step)) && (step.CallComplete? || step.CallAbandon?)
             && !Latest(s.At(s.execs[e].op.id), s.execs[e])
    ensures var s := Run(INIT, evs);
            var x := s.execs[e];
            var row := s.At(x.op.id).row;
            Apply(s, Do(e, step)).execs[e].settles[0].reply == Answered(Ok) <==>
            && step.fate == Delivered && row.Some? && x.claim.Some? && row.value.fence == x.claim.value.fence
            && (if step.CallComplete? then row.value.expiresAt > step.now else row.value.state == InFlight)
  {
    InvRun(INIT, evs);
    assert ExecOk(Run(INIT, evs).execs[e]);
  }

  /**
   A holder with a later acquire in the log of its own lifetime changes nothing and is never told `ok`; when it
   is told `stale_fence`, the record's fence is indeed the higher one.
   */
  lemma StaleHolderHarmless(evs: seq<Event>, e: nat, step: Step)
    requires var s := Run(INIT, evs);
             && Enabled(s, Do(e, step)) && (step.CallComplete? || step.CallAbandon?)
             && var x := s.execs[e];
                var sl := s.At(x.op.id);
                x.claim.Some? && x.claim.value.life == sl.Life() && x.claim.value.fence < |sl.current|
    ensures var s := Run(INIT, evs);
            var x := s.execs[e];
            var s' := Apply(s, Do(e, step));
            && s'.slots == s.slots && s'.execs[e].settles[0].reply != Answered(Ok)
            && s.At(x.op.id).row.Some? && x.claim.value.fence < s.At(x.op.id).row.value.fence
  {
    InvRun(INIT, evs);
    var s := Run(INIT, evs);
    var x := s.execs[e];
    assert ClaimOk(s.At(x.op.id), x, e) && ExecOk(x) && SlotOk(s.At(x.op.id));
    LateSettleExact(evs, e, step);
  }

  /** Every holder is the latest, has a later acquire after it in its lifetime, or outlived its lifetime. */
  lemma LateHolders(evs: seq<Event>, e: nat)
    requires var s := Run(INIT, evs); e in s.execs && s.execs[e].claim.Some?
    ensures var s := Run(INIT, evs);
            var x := s.execs[e];
            var sl := s.At(x.op.id);
            !Latest(sl, x) <==>
            x.claim.value.life < sl.Life() || x.claim.value.fence < |sl.current|
  {
    InvRun(INIT, evs);
    var s := Run(INIT, evs);
    assert ClaimOk(s.At(s.execs[e].op.id), s.execs[e], e) && SlotOk(s.At(s.execs[e].op.id));
  }

  // ----- lease exclusion

  /** Executions on `k` have a positive lease and TTL. */
  predicate PositiveEvent(ev: Event, k: Id) {
    ev.Start? && ev.op.id == k ==> ev.policy.leaseMs > 0 && ev.policy.ttlMs > 0
  }

  ghost predicate PositiveSlot(sl: Slot) {
    && (forall i :: 0 <= i < |sl.current| ==> sl.current[i].at < sl.current[i].End())
    && (forall l, i :: 0 <= l < |sl.past| && 0 <= i < |sl.past[l]| ==> sl.past[l][i].at < sl.past[l][i].End())
  }

  ghost predicate Positive(s: Sys, k: Id) {
    && (forall e :: e in s.execs && s.execs[e].op.id == k ==>
                      s.execs[e].policy.leaseMs > 0 && s.execs[e].policy.ttlMs > 0)
    && PositiveSlot(s.At(k))
  }

  lemma PositiveWritten(sl: Slot, row: Option<Record>)
    requires PositiveSlot(sl)
    ensures PositiveSlot(sl.Written(row))
  {
  }

  lemma PositiveSlotStep(sl: Slot, x: Exec, e: nat, step: Step)
    requires PositiveSlot(sl) && Ready(x, step) && x.policy.leaseMs > 0 && x.policy.ttlMs > 0
    ensures PositiveSlot(StepSlot(sl, x, e, step))
  {
    match step
    case CallComplete(now, _) => PositiveWritten(sl, Contract.Complete(sl.row, x.pc.fence, x.pc.payload, now).1);
    case CallAbandon(_) => PositiveWritten(sl, Contract.Abandon(sl.row, x.pc.fence).1);
    case _ =>
  }

  lemma PositiveStep(s: Sys, ev: Event, k: Id)
    requires Positive(s, k) && PositiveEvent(ev, k)
    ensures Positive(Apply(s, ev), k)
  {
    if Enabled(s, ev) {
      match ev
      case Do(e, step) => if s.execs[e].op.id == k { PositiveSlotStep(s.At(k), s.execs[e], e, step); }
      case Purge(now) => PositiveWritten(s.At(k), Contract.Read(s.At(k).row, now));
      case Sweep(_) => PositiveWritten(s.At(k), None);
      case _ =>
    }
  }

  lemma {:induction false} PositiveRun(s: Sys, evs: seq<Event>, k: Id)
    requires Positive(s, k) && forall ev :: ev in evs ==> PositiveEvent(ev, k)
    ensures Positive(Run(s, evs), k)
    decreases |evs|
  {
    if evs != [] {
      PositiveStep(s, evs[0], k);
      PositiveRun(Apply(s, evs[0]), evs[1..], k);
    }
  }

  lemma {:induction false} WindowsOrdered(log: seq<Acquire>, i: nat, j: nat)
    requires LogOk(log) && i < j < |log|
    requires forall n :: 0 <= n < |log| ==> log[n].at < log[n].End()
    ensures log[i].End() <= log[j].at
    decreases j
  {
    if i < j - 1 { WindowsOrdered(log, i, j - 1); }
    assert log[j - 1].End() <= log[j].at;
  }

  /**
   Within a lifetime the windows from an acquire's clock reading to the earlier of its lease and its expiry
   are pairwise disjoint and in the order of the fences, whatever clocks the callers read.
   */
  lemma LeaseExclusion(evs: seq<Event>, k: Id, life: nat, i: nat, j: nat)
    requires forall ev :: ev in evs ==> PositiveEvent(ev, k)
    requires i < j < |Run(INIT, evs).At(k).Log(life)|
    ensures var log := Run(INIT, evs).At(k).Log(life);
            log[i].at < log[i].End() <= log[j].at < log[j].End()
  {
    InvRun(INIT, evs);
    PositiveRun(INIT, evs, k);
    var sl := Run(INIT, evs).At(k);
    assert SlotOk(sl) && PositiveSlot(sl);
    WindowsOrdered(sl.Log(life), i, j);
  }

  // ----- completed records are stable

  /** No clock reading at or past `until` claims or purges `k`, and its row is not swept. */
  predicate Quiet(s: Sys, ev: Event, k: Id, until: int) {
    match ev
    case Sweep(j) => j != k
    case Purge(now) => now < until
    case Do(e, CallBegin(now, _)) => e in s.execs && s.execs[e].op.id == k ==> now < until
    case _ => true
  }

  predicate QuietRun(s: Sys, evs: seq<Event>, k: Id, until: int)
    decreases |evs|
  {
    evs == [] || (Quiet(s, evs[0], k, until) && QuietRun(Apply(s, evs[0]), evs[1..], k, until))
  }

  predicate IsCompleted(sl: Slot) { sl.row.Some? && sl.row.value.state == Completed }

  lemma StableStep(s: Sys, ev: Event, k: Id)
    requires IsCompleted(s.At(k)) && Quiet(s, ev, k, s.At(k).row.value.expiresAt)
    ensures Apply(s, ev).At(k) == s.At(k)
  {
  }

  lemma {:induction false} StableRun(s: Sys, evs: seq<Event>, k: Id)
    requires IsCompleted(s.At(k)) && QuietRun(s, evs, k, s.At(k).row.value.expiresAt)
    ensures Run(s, evs).At(k) == s.At(k)
    decreases |evs|
  {
    if evs != [] {
      StableStep(s, evs[0], k);
      StableRun(Apply(s, evs[0]), evs[1..], k);
    }
  }

  /**
   After any such continuation a begin on `k` replays exactly the stored record to the same payload and
   reports a mismatch to any other; it never acquires, so no handler starts under a claim on `k`.
   */
  lemma CompletedStable(s: Sys, evs: seq<Event>, k: Id, e: nat, now: int)
    requires IsCompleted(s.At(k)) && now < s.At(k).row.value.expiresAt
    requires QuietRun(s, evs, k, s.At(k).row.value.expiresAt)
    requires var t := Run(s, evs); Enabled(t, Do(e, CallBegin(now, Delivered))) && t.execs[e].op.id == k
    ensures var r := s.At(k).row.value;
            var t := Run(s, evs);
            var t' := Apply(t, Do(e, CallBegin(now, Delivered)));
            && t'.At(k) == t.At(k) == s.At(k)
            && t'.execs[e].pc == Done(if t.execs[e].op.fingerprint == r.fingerprint then Replayed(r) else Mismatched(r))
  {
    StableRun(s, evs, k);
  }

  // ----- every claim is discharged

  /**
   Once the settling call of a latest holder was answered, its row is not in flight, unless the call was a
   complete whose clock reading was at or past the row's expiry.
   */
  predicate Settled(sl: Slot, x: Exec) {
    Latest(sl, x) && sl.row.value.state == InFlight && |x.settles| == 1 && x.settles[0].reply.Answered? ==>
      var c := x.settles[0];
      c.CompleteCall? && c.reply.value == NotFound && sl.row.value.expiresAt <= c.now
  }

  ghost predicate AllSettled(s: Sys) {
    forall e :: e in s.execs ==> Settled(s.At(s.execs[e].op.id), s.execs[e])
  }

  /** The execution that takes the step. */
  lemma SettledSelf(sl: Slot, x: Exec, e: nat, step: Step)
    requires SlotOk(sl) && ExecOk(x) && ClaimOk(sl, x, e) && Ready(x, step) && Settled(sl, x)
    ensures Settled(StepSlot(sl, x, e, step), StepExec(sl, x, step))
  {
  }

  /** Any other execution on the same id. */
  lemma SettledOther(sl: Slot, x: Exec, e: nat, step: Step, y: Exec, d: nat)
    requires SlotOk(sl) && Ready(x, step) && ClaimOk(sl, y, d) && Settled(sl, y)
    ensures Settled(StepSlot(sl, x, e, step), y)
  {
  }

  lemma SettledStep(s: Sys, ev: Event)
    requires Inv(s) && AllSettled(s)
    ensures AllSettled(Apply(s, ev))
  {
    var s' := Apply(s, ev);
    forall d | d in s'.execs ensures Settled(s'.At(s'.execs[d].op.id), s'.execs[d]) {
      if d in s.execs && Enabled(s, ev) && ev.Do? {
        var x, y := s.execs[ev.e], s.execs[d];
        var sl := s.At(y.op.id);
        assert SlotOk(sl) && ExecOk(x) && ClaimOk(s.At(x.op.id), x, ev.e) && ClaimOk(sl, y, d);
        if d == ev.e { SettledSelf(sl, x, d, ev.step); }
        else if x.op.id == y.op.id { SettledOther(sl, x, ev.e, ev.step, y, d); }
      }
    }
  }

  lemma {:induction false} SettledRun(s: Sys, evs: seq<Event>)
    requires Inv(s) && AllSettled(s)
    ensures AllSettled(Run(s, evs))
    decreases |evs|
  {
    if evs != [] {
      SettledStep(s, evs[0]);
      InvStep(s, evs[0]);
      SettledRun(Apply(s, evs[0]), evs[1..]);
    }
  }

  predicate Ended(x: Exec) { x.pc.Done? || x.pc.Threw? }

  /**
   In every run, an execution that acquired and ended made exactly one settling call, with its own fence, unless
   the caller's storeResult threw. When that call was answered, the row is from then on never in flight at this
   fence, except for a complete whose clock reading was at or past the row's expiry.
   */
  lemma Discharged(evs: seq<Event>, e: nat)
    requires var s := Run(INIT, evs); e in s.execs && s.execs[e].claim.Some? && Ended(s.execs[e])
    ensures var s := Run(INIT, evs);
            var x := s.execs[e];
            var sl := s.At(x.op.id);
            && (|x.settles| == 1 <==> x.pc != Threw(ByPredicate)) && |x.settles| <= 1
            && (|x.settles| == 1 ==> x.settles[0].fence == x.claim.value.fence)
            && (|x.settles| == 1 && x.settles[0].reply.Answered? && Latest(sl, x) && sl.row.value.state == InFlight ==>
                  x.settles[0].CompleteCall? && sl.row.value.expiresAt <= x.settles[0].now)
  {
    InvRun(INIT, evs);
    SettledRun(INIT, evs);
    var s := Run(INIT, evs);
    assert ExecOk(s.execs[e]) && Settled(s.At(s.execs[e].op.id), s.execs[e]);
  }

  // ----- what the settling call is

  /** The caller's storeResult decides what is done with a claim, and fail-open alone runs a handler without one. */
  ghost predicate Verdicts(x: Exec) {
    && (x.pc.AwaitComplete? ==> x.policy.storeResult(x.pc.pending) == Keep)
    && (x.pc.AwaitAbandon? && x.pc.result.Some? ==> x.policy.storeResult(x.pc.result.value) == Drop)
    && (x.pc == Threw(ByPredicate) ==> exists r :: x.policy.storeResult(r) == Raise)
    && (|x.settles| == 1 && x.pc.Done? && x.pc.answer.Executed? ==>
          x.policy.storeResult(x.pc.answer.result) == if x.settles[0].CompleteCall? then Keep else Drop)
    && ((x.pc.AwaitRun? || (x.pc.Done? && x.pc.answer.Executed?)) && x.claim.None? ==> x.policy.failOpen)
    && (x.pc == Done(StoreError) ==> !x.policy.failOpen)
  }

  lemma VerdictExec(sl: Slot, x: Exec, step: Step)
    requires ExecOk(x) && Verdicts(x) && Ready(x, step)
    ensures Verdicts(StepExec(sl, x, step))
  {
  }

  lemma VerdictStep(s: Sys, ev: Event)
    requires Inv(s) && forall e :: e in s.execs ==> Verdicts(s.execs[e])
    ensures forall e :: e in Apply(s, ev).execs ==> Verdicts(Apply(s, ev).execs[e])
  {
    var s' := Apply(s, ev);
    forall e | e in s'.execs ensures Verdicts(s'.execs[e]) {
      if e in s.execs {
        assert Verdicts(s.execs[e]) && ExecOk(s.execs[e]);
        if Enabled(s, ev) && ev.Do? && ev.e == e { VerdictExec(s.At(s.execs[e].op.id), s.execs[e], ev.step); }
      }
    }
  }

  lemma {:induction false} VerdictRun(s: Sys, evs: seq<Event>)
    requires Inv(s) && forall e :: e in s.execs ==> Verdicts(s.execs[e])
    ensures forall e :: e in Run(s, evs).execs ==> Verdicts(Run(s, evs).execs[e])
    decreases |evs|
  {
    if evs != [] {
      VerdictStep(s, evs[0]);
      InvStep(s, evs[0]);
      VerdictRun(Apply(s, evs[0]), evs[1..]);
    }
  }

  /**
   In every run, a claimed execution that was answered completed its claim exactly if storeResult kept the result
   and abandoned it exactly if storeResult dropped it; one whose handler threw abandoned it.
   */
  lemma SettledByVerdict(evs: seq<Event>, e: nat)
    requires var s := Run(INIT, evs); e in s.execs && s.execs[e].claim.Some? && Ended(s.execs[e])
    ensures var x := Run(INIT, evs).execs[e];
            && (x.pc.Done? ==>
                  && x.pc.answer.Executed? && |x.settles| == 1
                  && (x.settles[0].CompleteCall? <==> x.policy.storeResult(x.pc.answer.result) == Keep)
                  && (x.settles[0].AbandonCall? <==> x.policy.storeResult(x.pc.answer.result) == Drop))
            && (x.pc == Threw(ByHandler) ==> |x.settles| == 1 && x.settles[0].AbandonCall?)
  {
    InvRun(INIT, evs);
    VerdictRun(INIT, evs);
    var x := Run(INIT, evs).execs[e];
    assert ExecOk(x) && Verdicts(x);
  }

  /**
   In every run under the default storeResult, every claim that ended has been settled. A message outcome and an
   HTTP result with a status below 500 is completed; an HTTP result without a status, or with one from 500 on, is
   abandoned, so that a retry runs the handler again.
   */
  lemma DischargedByDefault(evs: seq<Event>, e: nat)
    requires var s := Run(INIT, evs);
             && e in s.execs && s.execs[e].claim.Some? && Ended(s.execs[e])
             && forall r :: s.execs[e].policy.storeResult(r) == DefaultStoreResult(r)
    ensures var x := Run(INIT, evs).execs[e];
            && |x.settles| == 1 && x.settles[0].fence == x.claim.value.fence
            && (x.pc.Done? ==>
                  && x.pc.answer.Executed?
                  && var r := x.pc.answer.result;
                     x.settles[0].CompleteCall? <==> r.kind == Message || (r.status.Some? && r.status.value < 500))
  {
    InvRun(INIT, evs);
    VerdictRun(INIT, evs);
    Discharged(evs, e);
    var x := Run(INIT, evs).execs[e];
    assert ExecOk(x) && Verdicts(x);
  }

  /**
   In every run, a handler runs without a claim only under fail-open and only after a begin that failed; such an
   execution settles nothing and reports nothing stored.
   */
  lemma UnclaimedRuns(evs: seq<Event>, e: nat)
    requires var s := Run(INIT, evs);
             && e in s.execs && s.execs[e].claim.None?
             && var pc := s.execs[e].pc; pc.AwaitRun? || (pc.Done? && pc.answer.Executed?)
    ensures var x := Run(INIT, evs).execs[e];
            x.policy.failOpen && x.settles == [] && (x.pc.Done? ==> !x.pc.answer.stored)
  {
    InvRun(INIT, evs);
    VerdictRun(INIT, evs);
    var x := Run(INIT, evs).execs[e];
    assert ExecOk(x) && Verdicts(x);
  }

  /** Without a claim the handler's end is the execution's: its result unstored, or its error. */
  lemma UnclaimedEnds(s: Sys, e: nat, reply: Reply<StoredResult>)
    requires Inv(s) && Enabled(s, Do(e, HandlerEnds(reply))) && s.execs[e].claim.None?
    ensures var s' := Apply(s, Do(e, HandlerEnds(reply)));
            && s'.execs[e].pc == (if reply.Answered? then Done(Executed(reply.value, false)) else Threw(ByHandler))
            && forall k :: s'.At(k) == s.At(k)
  {
    assert ExecOk(s.execs[e]);
  }

  /** What an execution does next, by the row its begin finds and by what becomes of the reply. */
  lemma BeginLeads(s: Sys, e: nat, now: int, fate: Fate)
    requires Inv(s) && Enabled(s, Do(e, CallBegin(now, fate)))
    ensures var x := s.execs[e];
            var row := s.At(x.op.id).row;
            var s' := Apply(s, Do(e, CallBegin(now, fate)));
            var pc := s'.execs[e].pc;
            if fate != Delivered then
              pc == (if x.policy.failOpen then AwaitRun(0, false) else Done(StoreError)) && s'.execs[e].claim == None
            else if row.Some? && row.value.expiresAt > now && row.value.fingerprint != x.op.fingerprint then
              pc == Done(Mismatched(row.value)) && s'.At(x.op.id) == s.At(x.op.id)
            else if row.Some? && row.value.expiresAt > now && row.value.state == Completed then
              pc == Done(Replayed(row.value)) && s'.At(x.op.id) == s.At(x.op.id)
            else if row.Some? && row.value.expiresAt > now && row.value.leaseUntil > now then
              pc == Done(Conflict(row.value.leaseUntil)) && s'.At(x.op.id) == s.At(x.op.id)
            else
              var fence := if row.Some? then row.value.fence + 1 else 1;
              pc == AwaitRun(fence, true) && Latest(s'.At(x.op.id), s'.execs[e])
              && s'.At(x.op.id).row.value.leaseUntil == now + x.policy.leaseMs
              && s'.At(x.op.id).row.value.expiresAt == now + x.policy.ttlMs
  {
    assert SlotOk(s.At(s.execs[e].op.id));
  }

  /** What physical removals do. */
  lemma RemovalsExact(s: Sys, now: int, k: Id)
    ensures var row, purged := s.At(k).row, Apply(s, Purge(now)).At(k);
            purged.row == (if row.Some? && row.value.expiresAt <= now then None else row)
    ensures var swept := Apply(s, Sweep(k)).At(k);
            swept.row == None && swept.Life() == s.At(k).Life() + (if s.At(k).row.Some? then 1 else 0)
    ensures forall j :: j != k ==> Apply(s, Sweep(k)).At(j) == s.At(j)
  {
  }

  // ----- what the row of a latest holder is

  predicate LatestAt(s: Sys, e: nat, k: Id) {
    e in s.execs && s.execs[e].op.id == k && Latest(s.At(k), s.execs[e])
  }

  /** A complete, of any execution, that writes the row of `k` while e is its latest holder. */
  predicate Lands(s: Sys, ev: Event, e: nat, k: Id) {
    && LatestAt(s, e, k)
    && ev.Do? && ev.step.CallComplete? && Enabled(s, ev)
    && s.execs[ev.e].op.id == k && Hits(s.At(k), s.execs[ev.e], ev.step)
  }

  /** The payload of the first complete that lands. */
  function Landed(s: Sys, evs: seq<Event>, e: nat, k: Id): Option<Payload>
    decreases |evs|
  {
    if evs == [] then None
    else if Lands(s, evs[0], e, k) then Some(s.execs[evs[0].e].pc.payload)
    else Landed(Apply(s, evs[0]), evs[1..], e, k)
  }

  predicate Holds(r: Record, p: Payload) {
    r.state == Completed && r.result == Some(p.Stored()) && r.resultOmitted == p.Omitted?
  }

  /** What an execution keeps: its operation and policy, and its claim and settling call once it has them. */
  lemma ExecStays(s: Sys, ev: Event, e: nat)
    requires Inv(s) && e in s.execs
    ensures var s' := Apply(s, ev);
            && e in s'.execs && s'.execs[e].op == s.execs[e].op && s'.execs[e].policy == s.execs[e].policy
            && (s.execs[e].claim.Some? ==> s'.execs[e].claim == s.execs[e].claim)
            && (s.execs[e].settles != [] ==> s'.execs[e].settles == s.execs[e].settles)
  {
    assert ExecOk(s.execs[e]);
  }

  lemma {:induction false} ExecStaysRun(s: Sys, evs: seq<Event>, e: nat)
    requires Inv(s) && e in s.execs
    ensures var t := Run(s, evs);
            && e in t.execs && t.execs[e].op == s.execs[e].op
            && (s.execs[e].settles != [] ==> t.execs[e].settles == s.execs[e].settles)
    decreases |evs|
  {
    if evs != [] {
      ExecStays(s, evs[0], e);
      InvStep(s, evs[0]);
      ExecStaysRun(Apply(s, evs[0]), evs[1..], e);
    }
  }

  lemma SlotGrows(s: Sys, ev: Event, k: Id)
    requires Inv(s)
    ensures Grows(s.At(k), Apply(s, ev).At(k))
  {
    if Enabled(s, ev) {
      match ev
      case Do(e, step) => if s.execs[e].op.id == k { SlotStep(s.At(k), s.execs[e], e, step); }
      case Purge(now) => SlotWritten(s.At(k), Contract.Read(s.At(k).row, now));
      case Sweep(_) => SlotWritten(s.At(k), None);
      case _ =>
    }
  }

  /** A claim that is not the latest never is again. */
  lemma LostStep(s: Sys, ev: Event, e: nat, k: Id)
    requires Inv(s) && e in s.execs && s.execs[e].op.id == k && s.execs[e].claim.Some? && !LatestAt(s, e, k)
    ensures !LatestAt(Apply(s, ev), e, k)
  {
    var s', c := Apply(s, ev), s.execs[e].claim.value;
    ExecStays(s, ev, e);
    SlotGrows(s, ev, k);
    InvStep(s, ev);
    assert ClaimOk(s.At(k), s.execs[e], e) && SlotOk(s.At(k)) && SlotOk(s'.At(k));
    assert s.At(k).Log(c.life) <= s'.At(k).Log(c.life);
  }

  lemma {:induction false} LostRun(s: Sys, evs: seq<Event>, e: nat, k: Id)
    requires Inv(s) && e in s.execs && s.execs[e].op.id == k && s.execs[e].claim.Some? && !LatestAt(s, e, k)
    ensures !LatestAt(Run(s, evs), e, k)
    decreases |evs|
  {
    if evs != [] {
      LostStep(s, evs[0], e, k);
      ExecStays(s, evs[0], e);
      InvStep(s, evs[0]);
      LostRun(Apply(s, evs[0]), evs[1..], e, k);
    }
  }

  /** While a holder stays the latest, only a complete that lands changes its row. */
  lemma LatestStep(s: Sys, ev: Event, e: nat, k: Id)
    requires Inv(s) && LatestAt(s, e, k) && LatestAt(Apply(s, ev), e, k)
    ensures var r, r' := s.At(k).row.value, Apply(s, ev).At(k).row.value;
            if Lands(s, ev, e, k) then r.state == InFlight && Holds(r', s.execs[ev.e].pc.payload) else r' == r
  {
    ExecStays(s, ev, e);
    assert SlotOk(s.At(k)) && ClaimOk(s.At(k), s.execs[e], e);
    if Enabled(s, ev) && ev.Do? {
      var x := s.execs[ev.e];
      assert ExecOk(x) && ClaimOk(s.At(x.op.id), x, ev.e);
    }
  }

  /** A holder becomes the latest by its own acquire. */
  lemma BecomesLatest(s: Sys, ev: Event, e: nat, k: Id)
    requires Inv(s) && !LatestAt(s, e, k) && LatestAt(Apply(s, ev), e, k)
    ensures var r := Apply(s, ev).At(k).row.value; r.state == InFlight && Clean(r)
  {
    InvStep(s, ev);
    assert SlotOk(Apply(s, ev).At(k));
    if e in s.execs {
      ExecStays(s, ev, e);
      if s.execs[e].claim.Some? { LostStep(s, ev, e, k); }
    }
  }

  /**
   Along every run, the row of a latest holder is in flight without a result until a complete lands, and then
   holds that complete's payload.
   */
  lemma {:induction false} LandedRow(s: Sys, evs: seq<Event>, e: nat, k: Id)
    requires Inv(s) && LatestAt(Run(s, evs), e, k)
    ensures var r := Run(s, evs).At(k).row.value;
            if LatestAt(s, e, k) && s.At(k).row.value.state == Completed then r == s.At(k).row.value
            else match Landed(s, evs, e, k)
                 case None => r.state == InFlight && Clean(r)
                 case Some(p) => Holds(r, p)
    decreases |evs|
  {
    if evs == [] {
      assert SlotOk(s.At(k));
    } else {
      var s' := Apply(s, evs[0]);
      InvStep(s, evs[0]);
      LandedRow(s', evs[1..], e, k);
      if LatestAt(s, e, k) {
        if !LatestAt(s', e, k) {
          ExecStays(s, evs[0], e);
          LostRun(s', evs[1..], e, k);
        }
        LatestStep(s, evs[0], e, k);
      } else if LatestAt(s', e, k) {
        BecomesLatest(s, evs[0], e, k);
      }
    }
  }

  lemma LatestRow(evs: seq<Event>, e: nat, k: Id)
    requires LatestAt(Run(INIT, evs), e, k)
    ensures var r := Run(INIT, evs).At(k).row.value;
            match Landed(INIT, evs, e, k)
            case None => r.state == InFlight && Clean(r)
            case Some(p) => Holds(r, p)
  {
    LandedRow(INIT, evs, e, k);
  }

  // ----- what `stored: true` is worth

  predicate SameForm(p: Payload, q: Payload) { p.Stored() == q.Stored() && p.Omitted? == q.Omitted? }

  /** Another execution's complete lands with another payload. */
  predicate Overwrites(s: Sys, ev: Event, e: nat, k: Id, p: Payload) {
    Lands(s, ev, e, k) && ev.e != e && !SameForm(s.execs[ev.e].pc.payload, p)
  }

  predicate NotOverwritten(s: Sys, evs: seq<Event>, e: nat, k: Id, p: Payload)
    decreases |evs|
  {
    evs == [] || (!Overwrites(s, evs[0], e, k, p) && NotOverwritten(Apply(s, evs[0]), evs[1..], e, k, p))
  }

  /** The execution's own complete lands with the payload that its settling call is remembered by. */
  lemma OwnPayload(s: Sys, evs: seq<Event>, e: nat, k: Id, p: Payload)
    requires Inv(s) && evs != [] && Lands(s, evs[0], e, k) && evs[0].e == e
    requires var x := Run(s, evs).execs; e in x && |x[e].settles| == 1 && x[e].settles[0].CompleteCall?
                                         && x[e].settles[0].payload == p
    ensures s.execs[e].pc.payload == p
  {
    assert ExecOk(s.execs[e]);
    InvStep(s, evs[0]);
    ExecStaysRun(Apply(s, evs[0]), evs[1..], e);
  }

  /** At most one complete lands while a holder stays the latest, so the first one decides. */
  lemma {:induction false} LandedOnce(s: Sys, evs: seq<Event>, e: nat, k: Id, p: Payload)
    requires Inv(s) && LatestAt(Run(s, evs), e, k)
    requires var x := Run(s, evs).execs[e]; |x.settles| == 1 && x.settles[0].CompleteCall? && x.settles[0].payload == p
    ensures if LatestAt(s, e, k) && s.At(k).row.value.state == Completed then NotOverwritten(s, evs, e, k, p)
            else NotOverwritten(s, evs, e, k, p) <==>
                 var q := Landed(s, evs, e, k); q.None? || SameForm(q.value, p)
    decreases |evs|
  {
    if evs != [] {
      var s' := Apply(s, evs[0]);
      InvStep(s, evs[0]);
      LandedOnce(s', evs[1..], e, k, p);
      if LatestAt(s, e, k) {
        if !LatestAt(s', e, k) {
          ExecStays(s, evs[0], e);
          LostRun(s', evs[1..], e, k);
        }
        LatestStep(s, evs[0], e, k);
        if Lands(s, evs[0], e, k) && evs[0].e == e { OwnPayload(s, evs, e, k, p); }
      } else if LatestAt(s', e, k) {
        BecomesLatest(s, evs[0], e, k);
      }
    }
  }

  /**
   In every run, `stored: true` means that the row, while it is still this claim's, is completed; and that it holds
   this execution's payload if and only if no other execution's complete has landed in it with another one.
   */
  lemma StoredIsHeld(evs: seq<Event>, e: nat)
    requires var s := Run(INIT, evs);
             && e in s.execs && s.execs[e].pc.Done? && s.execs[e].pc.answer.Executed? && s.execs[e].pc.answer.stored
             && Latest(s.At(s.execs[e].op.id), s.execs[e])
    ensures var s := Run(INIT, evs);
            var x := s.execs[e];
            var k, p := x.op.id, PayloadFor(x.policy, x.pc.answer.result);
            && IsCompleted(s.At(k))
            && (Holds(s.At(k).row.value, p) <==> NotOverwritten(INIT, evs, e, k, p))
  {
    InvRun(INIT, evs);
    SettledRun(INIT, evs);
    var s := Run(INIT, evs);
    var x := s.execs[e];
    assert ExecOk(x) && Settled(s.At(x.op.id), x);
    LatestRow(evs, e, x.op.id);
    LandedOnce(INIT, evs, e, x.op.id, PayloadFor(x.policy, x.pc.answer.result));
  }

  /** The row of a latest holder carries its operation's fingerprint. */
  lemma LatestFingerprint(s: Sys, e: nat)
    requires Inv(s) && e in s.execs && Latest(s.At(s.execs[e].op.id), s.execs[e])
    ensures s.At(s.execs[e].op.id).row.value.fingerprint == s.execs[e].op.fingerprint
  {
    assert ClaimOk(s.At(s.execs[e].op.id), s.execs[e], e) && SlotOk(s.At(s.execs[e].op.id));
  }

  // ----- runs that break a promise

  lemma Run2(s: Sys, a: Event, b: Event)
    ensures Run(s, [a, b]) == Apply(Apply(s, a), b)
  {
    assert [a, b][1..] == [b] && [b][1..] == [];
    assert Run(Apply(s, a), [b]) == Run(Apply(Apply(s, a), b), []);
  }

  lemma {:induction false} RunAppend(s: Sys, evs: seq<Event>, more: seq<Event>)
    ensures Run(s, evs + more) == Run(Run(s, evs), more)
    decreases |evs|
  {
    if evs == [] {
      assert evs + more == more;
    } else {
      assert (evs + more)[1..] == evs[1..] + more;
      RunAppend(Apply(s, evs[0]), evs[1..], more);
    }
  }

  /** A storeResult that throws leaves the claim in flight with no settling call to come. */
  lemma PredicateThrowStrands(op: Operation, policy: Policy, r: StoredResult, now: int)
    requires policy.storeResult(r) == Raise
    ensures exists evs ::
              var s := Run(INIT, evs);
              && 0 in s.execs && s.execs[0].pc == Threw(ByPredicate) && s.execs[0].settles == []
              && Latest(s.At(op.id), s.execs[0]) && s.At(op.id).row.value.state == InFlight
              && forall step :: Ready(s.execs[0], step) ==> step.Crash?
  {
    var a, b, c := Start(0, op, policy), Do(0, CallBegin(now, Delivered)), Do(0, HandlerEnds(Answered(r)));
    Run2(INIT, a, b);
    RunAppend(INIT, [a, b], [c]);
    var s := Apply(Run(INIT, [a, b]), c);
    assert Run(INIT, [a, b] + [c]) == s;
    assert s.execs[0].pc == Threw(ByPredicate);
  }

  /** Executions 0 and 1 both run under fence 1 of the same id, in lifetimes 0 and 1; the row is that of 1. */
  ghost predicate Crossed(s: Sys, op: Operation, policy: Policy) {
    && 0 in s.execs && 1 in s.execs
    && s.execs[0] == Exec(op, policy, AwaitRun(1, true), false, Some(Claim(0, 1)), [])
    && s.execs[1] == Exec(op, policy, AwaitRun(1, true), false, Some(Claim(1, 1)), [])
    && s.At(op.id).Life() == 1
    && s.At(op.id).row == Some(Contract.FreshRecord(op, BeginOptions(policy.leaseMs, policy.ttlMs, 200), 1))
  }

  lemma ReachCrossed(op: Operation, policy: Policy) returns (evs: seq<Event>)
    requires policy.ttlMs == 100
    ensures Crossed(Run(INIT, evs), op, policy)
  {
    var a, b := Start(0, op, policy), Do(0, CallBegin(0, Delivered));
    var c, d, e := Purge(200), Start(1, op, policy), Do(1, CallBegin(200, Delivered));
    Run2(INIT, a, b);
    var s2 := Run(INIT, [a, b]);
    assert s2.At(op.id).row == Some(Contract.FreshRecord(op, BeginOptions(policy.leaseMs, 100, 0), 1));
    Run2(s2, c, d);
    var s4 := Run(s2, [c, d]);
    assert s4.At(op.id).row == None && s4.At(op.id).Life() == 1;
    RunAppend(INIT, [a, b], [c, d]);
    RunAppend(INIT, [a, b] + [c, d], [e]);
    assert Run(s4, [e]) == Apply(s4, e);
    evs := [a, b] + [c, d] + [e];
  }

  /**
   Across lifetimes fences repeat: a holder whose row was purged completes the row of its successor, whose
   own complete is then answered `ok` although its payload was never stored.
   */
  lemma CrossLifeHit(op: Operation, policy: Policy, r0: StoredResult, r1: StoredResult)
    requires policy.ttlMs == 100
    requires policy.storeResult(r0) == policy.storeResult(r1) == Keep
    requires PayloadFor(policy, r0) == Whole(r0)
    ensures exists evs ::
              var s := Run(INIT, evs);
              && 1 in s.execs && s.execs[1].pc == Done(Executed(r1, true)) && Latest(s.At(op.id), s.execs[1])
              && s.At(op.id).row.value.result == Some(r0)
  {
    var evs := ReachCrossed(op, policy);
    var s := Run(INIT, evs);
    var f, g := Do(0, HandlerEnds(Answered(r0))), Do(0, CallComplete(201, Delivered));
    var h, i := Do(1, HandlerEnds(Answered(r1))), Do(1, CallComplete(202, Delivered));
    Run2(s, f, g);
    var t := Run(s, [f, g]);
    assert t.At(op.id).row.value.result == Some(r0) && t.At(op.id).row.value.state == Completed;
    Run2(t, h, i);
    RunAppend(INIT, evs, [f, g]);
    RunAppend(INIT, evs + [f, g], [h, i]);
    assert Run(INIT, evs + [f, g] + [h, i]).execs[1].pc == Done(Executed(r1, true));
  }
}
