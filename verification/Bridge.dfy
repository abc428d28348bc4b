/**
 Requests of the HTTP bridge inside the claim protocol: any number of them, beside any other executions, on one
 shared record map. A request's store calls are the protocol's own steps and its handler's end is what its
 capture makes of it, so that what a client saw and what the store holds are parts of one state.
 */
module Bridge {
  import opened Types
  import opened Chunks
  import opened Engine
  import Capture
  import Contract
  import HttpRun
  import Protocol
  import ProtocolTheorems

  /** Every request is the execution of the same number. */
  datatype World = World(sys: Protocol.Sys, requests: map<nat, HttpRun.Request>)

  const INIT := World(Protocol.INIT, map[])

  datatype Event =
    | Request(e: nat, op: Operation, policy: Policy)
    | Store(ev: Protocol.Event)
    | Inside(e: nat, own: HttpRun.Event)

  /** What the request sees of its own store call: the reply the protocol gives. */
  function Seen(s: Protocol.Sys, e: nat, step: Protocol.Step): HttpRun.Event
    requires Protocol.Enabled(s, Protocol.Do(e, step)) && !step.HandlerEnds? && !step.Crash?
  {
    var x := s.execs[e];
    var row := s.At(x.op.id).row;
    match step
    case CallBegin(now, fate) =>
      HttpRun.BeginReplies(Protocol.Answer(fate, Contract.Begin(row, x.op, Protocol.Options(x, now)).0))
    case CallComplete(now, fate) =>
      HttpRun.CompleteReturns(Protocol.Answer(fate, Contract.Complete(row, x.pc.fence, x.pc.payload, now).0))
    case CallAbandon(_) => HttpRun.AbandonReturns
  }

  /** Events that are not replies of the store. */
  predicate Own(ev: HttpRun.Event) { !ev.BeginReplies? && !ev.AbandonReturns? && !ev.CompleteReturns? }

  predicate Enabled(w: World, ev: Event) {
    match ev
    case Request(e, _, _) => e !in w.sys.execs
    case Store(pev) => Protocol.Enabled(w.sys, pev) && !(pev.Do? && pev.e in w.requests && pev.step.HandlerEnds?)
    case Inside(e, own) =>
      && e in w.requests && e in w.sys.execs && !w.sys.execs[e].crashed
      && Own(own) && HttpRun.Enabled(w.requests[e], own)
  }

  /** The protocol's part of an event: none while only the request's stream or client moves. */
  function Part(w: World, ev: Event): Option<Protocol.Event> {
    match ev
    case Request(e, op, policy) => Some(Protocol.Start(e, op, policy))
    case Store(pev) => Some(pev)
    case Inside(e, own) =>
      if e !in w.requests then None
      else match HttpRun.HandlerEnd(w.requests[e], own)
           case Some(reply) => Some(Protocol.Do(e, Protocol.HandlerEnds(reply)))
           case None => None
  }

  function Sys(w: World, ev: Event): Protocol.Sys {
    if Part(w, ev).Some? then Protocol.Apply(w.sys, Part(w, ev).value) else w.sys
  }

  function Apply(w: World, ev: Event): World {
    if !Enabled(w, ev) then w
    else match ev
         case Request(e, _, policy) => World(Sys(w, ev), w.requests[e := HttpRun.Fresh(policy)])
         case Store(pev) =>
           if pev.Do? && pev.e in w.requests && !pev.step.Crash? then
             World(Sys(w, ev),
                   w.requests[pev.e := HttpRun.Apply(w.requests[pev.e], Seen(w.sys, pev.e, pev.step))])
           else World(Sys(w, ev), w.requests)
         case Inside(e, own) => World(Sys(w, ev), w.requests[e := HttpRun.Apply(w.requests[e], own)])
  }

  function Run(w: World, evs: seq<Event>): World
    decreases |evs|
  {
    if evs == [] then w else Run(Apply(w, evs[0]), evs[1..])
  }

  /** Body caps are not negative. */
  ghost predicate Capped(evs: seq<Event>) { forall ev :: ev in evs && ev.Request? ==> ev.policy.maxResultBytes >= 0 }

  // ----- a request is the execution it claims to be

  ghost predicate Linked(q: HttpRun.Request, x: Protocol.Exec) {
    && q.pc == x.pc && q.policy == x.policy && q.policy.maxResultBytes >= 0
    && HttpRun.Inv(q)
  }

  ghost predicate Inv(w: World) {
    && Protocol.Inv(w.sys)
    && forall e :: e in w.requests ==> e in w.sys.execs && Linked(w.requests[e], w.sys.execs[e])
  }

  /** A reply of the store moves the request and the execution alike. */
  lemma StoreLinks(s: Protocol.Sys, e: nat, step: Protocol.Step, q: HttpRun.Request)
    requires Protocol.Inv(s) && Protocol.Enabled(s, Protocol.Do(e, step)) && Linked(q, s.execs[e])
    requires !step.HandlerEnds? && !step.Crash?
    ensures Linked(HttpRun.Apply(q, Seen(s, e, step)), Protocol.Apply(s, Protocol.Do(e, step)).execs[e])
  {
    HttpRun.InvStep(q, Seen(s, e, step));
  }

  /** So does the end of the handler, which the execution hears of in the same step. */
  lemma InsideLinks(w: World, e: nat, own: HttpRun.Event)
    requires Inv(w) && Enabled(w, Inside(e, own))
    ensures var w' := Apply(w, Inside(e, own)); e in w'.sys.execs && Linked(w'.requests[e], w'.sys.execs[e])
  {
    assert Linked(w.requests[e], w.sys.execs[e]);
    HttpRun.InvStep(w.requests[e], own);
  }

  /** Other executions are untouched, whatever the protocol does. */
  lemma OthersLinked(s: Protocol.Sys, ev: Protocol.Event, d: nat)
    requires d in s.execs && !(ev.Do? && ev.e == d && !ev.step.Crash?)
    ensures var s' := Protocol.Apply(s, ev);
            d in s'.execs && s'.execs[d].pc == s.execs[d].pc && s'.execs[d].policy == s.execs[d].policy
  {
  }

  lemma StoreStep(w: World, ev: Protocol.Event, d: nat)
    requires Inv(w) && Enabled(w, Store(ev)) && d in w.requests
    ensures var w' := Apply(w, Store(ev)); d in w'.sys.execs && Linked(w'.requests[d], w'.sys.execs[d])
  {
    assert Linked(w.requests[d], w.sys.execs[d]);
    if ev.Do? && ev.e == d && !ev.step.Crash? { StoreLinks(w.sys, d, ev.step, w.requests[d]); }
    else { OthersLinked(w.sys, ev, d); }
  }

  lemma InsideStep(w: World, e: nat, own: HttpRun.Event, d: nat)
    requires Inv(w) && Enabled(w, Inside(e, own)) && d in w.requests
    ensures var w' := Apply(w, Inside(e, own)); d in w'.sys.execs && Linked(w'.requests[d], w'.sys.execs[d])
  {
    assert Linked(w.requests[d], w.sys.execs[d]);
    if e == d { InsideLinks(w, d, own); }
    else if Part(w, Inside(e, own)).Some? { OthersLinked(w.sys, Part(w, Inside(e, own)).value, d); }
  }

  lemma RequestStep(w: World, e: nat, op: Operation, policy: Policy, d: nat)
    requires Inv(w) && Enabled(w, Request(e, op, policy)) && policy.maxResultBytes >= 0
    requires d in w.requests || d == e
    ensures var w' := Apply(w, Request(e, op, policy));
            d in w'.sys.execs && Linked(w'.requests[d], w'.sys.execs[d])
  {
    if d != e { assert Linked(w.requests[d], w.sys.execs[d]); }
  }

  lemma InvStep(w: World, ev: Event)
    requires Inv(w) && (ev.Request? ==> ev.policy.maxResultBytes >= 0)
    ensures Inv(Apply(w, ev))
  {
    if Enabled(w, ev) {
      if Part(w, ev).Some? { Protocol.InvStep(w.sys, Part(w, ev).value); }
      match ev
      case Request(e, op, policy) =>
        forall d | d in w.requests || d == e { RequestStep(w, e, op, policy, d); }
      case Store(pev) => forall d | d in w.requests { StoreStep(w, pev, d); }
      case Inside(e, own) => forall d | d in w.requests { InsideStep(w, e, own, d); }
    }
  }

  lemma {:induction false} InvRun(w: World, evs: seq<Event>)
    requires Inv(w) && Capped(evs)
    ensures Inv(Run(w, evs))
    decreases |evs|
  {
    if evs != [] {
      InvStep(w, evs[0]);
      InvRun(Apply(w, evs[0]), evs[1..]);
    }
  }

  /** The protocol's events of a run. */
  function Trace(w: World, evs: seq<Event>): seq<Protocol.Event>
    decreases |evs|
  {
    if evs == [] then []
    else (if Enabled(w, evs[0]) && Part(w, evs[0]).Some? then [Part(w, evs[0]).value] else [])
         + Trace(Apply(w, evs[0]), evs[1..])
  }

  /** The protocol's share of a run is a run of the protocol, so everything proved of those holds of it. */
  lemma {:induction false} Projects(w: World, evs: seq<Event>)
    ensures Run(w, evs).sys == Protocol.Run(w.sys, Trace(w, evs))
    decreases |evs|
  {
    if evs != [] {
      var rest := Trace(Apply(w, evs[0]), evs[1..]);
      Projects(Apply(w, evs[0]), evs[1..]);
      if Enabled(w, evs[0]) && Part(w, evs[0]).Some? {
        assert ([Part(w, evs[0]).value] + rest)[1..] == rest;
      } else {
        assert [] + rest == rest;
      }
    }
  }

  // ----- what a client saw and what the store holds, in one state

  function RowOf(w: World, e: nat): Option<Record>
    requires e in w.sys.execs
  {
    w.sys.At(w.sys.execs[e].op.id).row
  }

  function PayloadOf(x: Protocol.Exec): Payload
    requires x.pc.Done? && x.pc.answer.Executed?
  {
    PayloadFor(x.policy, x.pc.answer.result)
  }

  /** No complete of another execution has landed with another payload in the row while it was this claim's. */
  ghost predicate Kept(evs: seq<Event>, x: Protocol.Exec, e: nat)
    requires x.pc.Done? && x.pc.answer.Executed?
  {
    ProtocolTheorems.NotOverwritten(Protocol.INIT, Trace(INIT, evs), e, x.op.id, PayloadOf(x))
  }

  /**
   In every state of every run: when a client has seen the end of its response, the execution is over and the
   settling call of its claim, if it had one, has been made (only a bodiless response escapes this, when
   storeResult threw). If that call was answered `ok`, the row is completed already, as long as it is this
   claim's, and holds this result exactly if no other execution's complete landed in it with another one.
   */
  lemma StoredBeforeEnd(evs: seq<Event>, e: nat)
    requires Capped(evs)
    requires var w := Run(INIT, evs); e in w.requests && HttpRun.SawEnd(w.requests[e])
    ensures var w := Run(INIT, evs);
            && e in w.sys.execs
            && var q, x := w.requests[e], w.sys.execs[e];
               && q.pc == x.pc
               && ((x.pc.Done? && x.pc.answer.Executed?) || (x.pc == Threw(ByPredicate) && !HttpRun.HasStream(q)))
               && (x.pc.Done? ==> q.cap.client.sent == HttpRun.Body(q.response.value))
               && (x.pc.Done? && x.claim.Some? ==>
                     && |x.settles| == 1 && x.settles[0].fence == x.claim.value.fence
                     && (x.pc.answer.stored <==> x.settles[0].CompleteCall? && x.settles[0].reply == Answered(Ok)))
               && (x.pc.Done? && x.pc.answer.stored && ProtocolTheorems.Latest(w.sys.At(x.op.id), x) ==>
                     && RowOf(w, e).value.state == Completed
                     && (ProtocolTheorems.Holds(RowOf(w, e).value, PayloadOf(x)) <==> Kept(evs, x, e)))
  {
    InvRun(INIT, evs);
    Projects(INIT, evs);
    var w := Run(INIT, evs);
    assert Linked(w.requests[e], w.sys.execs[e]);
    var q, x := w.requests[e], w.sys.execs[e];
    assert Protocol.ExecOk(x);
    HttpRun.SeenEnd(q);
    if x.pc.Done? && x.pc.answer.stored && ProtocolTheorems.Latest(w.sys.At(x.op.id), x) {
      ProtocolTheorems.StoredIsHeld(Trace(INIT, evs), e);
    }
  }

  /** A record that holds the payload of a request replays that request's response. */
  lemma HeldReplays(q: HttpRun.Request, rec: Record)
    requires HttpRun.Inv(q) && q.policy.maxResultBytes >= 0 && q.pc.Done? && q.pc.answer.Executed?
    requires ProtocolTheorems.Holds(rec, PayloadFor(q.policy, q.pc.answer.result))
    ensures q.response.Some?
            && HttpRun.Replays(HttpRun.ReplayResponse(rec), q.response.value, q.policy.maxResultBytes)
  {
    HttpRun.ResultOfResponse(q);
    HttpRun.ReplayOfCopy(rec, q.response.value, q.pc.answer.result.body.value, q.policy);
  }

  /** A later request on a completed row is answered from it, in the request's own control state. */
  lemma LaterReplayed(w: World, k: Id, after: seq<Event>, d: nat, now: int)
    requires Inv(w) && Capped(after) && ProtocolTheorems.IsCompleted(w.sys.At(k))
    requires var row, t := w.sys.At(k).row.value, Run(w, after);
             && now < row.expiresAt && ProtocolTheorems.QuietRun(w.sys, Trace(w, after), k, row.expiresAt)
             && d in t.requests && Enabled(t, Store(Protocol.Do(d, Protocol.CallBegin(now, Protocol.Delivered))))
             && t.sys.execs[d].op == Operation(k, row.fingerprint)
    ensures var t' := Apply(Run(w, after), Store(Protocol.Do(d, Protocol.CallBegin(now, Protocol.Delivered))));
            t'.requests[d].pc == Done(Replayed(w.sys.At(k).row.value))
  {
    Projects(w, after);
    ProtocolTheorems.CompletedStable(w.sys, Trace(w, after), k, d, now);
    InvRun(w, after);
    BeginAnswered(Run(w, after), d, now);
  }

  /** The request's control state after its begin is that of its execution. */
  lemma BeginAnswered(t: World, d: nat, now: int)
    requires Inv(t) && d in t.requests
    requires Enabled(t, Store(Protocol.Do(d, Protocol.CallBegin(now, Protocol.Delivered))))
    ensures var ev := Protocol.Do(d, Protocol.CallBegin(now, Protocol.Delivered));
            Apply(t, Store(ev)).requests[d].pc == Protocol.Apply(t.sys, ev).execs[d].pc
  {
    assert Linked(t.requests[d], t.sys.execs[d]);
    StoreLinks(t.sys, d, Protocol.CallBegin(now, Protocol.Delivered), t.requests[d]);
  }

  /** The request was told that its response is stored, its claim is still the row's, and nothing overwrote it. */
  ghost predicate Stored(w: World, evs: seq<Event>, e: nat) {
    && w == Run(INIT, evs) && e in w.requests && e in w.sys.execs
    && var x := w.sys.execs[e];
       && x.pc.Done? && x.pc.answer.Executed? && x.pc.answer.stored
       && ProtocolTheorems.Latest(w.sys.At(x.op.id), x)
       && Kept(evs, x, e)
  }

  lemma StoredHolds(w: World, evs: seq<Event>, e: nat)
    requires Capped(evs) && Stored(w, evs, e)
    ensures Inv(w) && Linked(w.requests[e], w.sys.execs[e])
    ensures var x := w.sys.execs[e];
            && ProtocolTheorems.Holds(RowOf(w, e).value, PayloadOf(x))
            && RowOf(w, e).value.fingerprint == x.op.fingerprint
  {
    InvRun(INIT, evs);
    Projects(INIT, evs);
    ProtocolTheorems.StoredIsHeld(Trace(INIT, evs), e);
    ProtocolTheorems.LatestFingerprint(w.sys, e);
  }

  /**
   End to end, in one run of everything. A client saw the end of its response, the request was told that it is
   stored, and no other execution's complete had landed in the row with another payload. As long as the row is
   still that claim's and no clock at or past its expiry is used on the key, every later request with the same key
   and payload is answered from the record: same status, same stored headers, and the bytes the first client
   received, or the marked omitted form when they were over the cap.
   */
  lemma EndToEnd(before: seq<Event>, w: World, e: nat, after: seq<Event>, d: nat, now: int)
    requires Capped(before) && Capped(after)
    requires Stored(w, before, e) && HttpRun.SawEnd(w.requests[e])
    requires var k, t := w.sys.execs[e].op.id, Run(w, after);
             var until := RowOf(w, e).value.expiresAt;
             && now < until && ProtocolTheorems.QuietRun(w.sys, Trace(w, after), k, until)
             && d in t.requests && Enabled(t, Store(Protocol.Do(d, Protocol.CallBegin(now, Protocol.Delivered))))
             && t.sys.execs[d].op == w.sys.execs[e].op
    ensures var q := w.requests[e];
            var t' := Apply(Run(w, after), Store(Protocol.Do(d, Protocol.CallBegin(now, Protocol.Delivered))));
            && q.response.Some? && t'.requests[d].pc.Done? && t'.requests[d].pc.answer.Replayed?
            && HttpRun.Replays(HttpRun.ReplayResponse(t'.requests[d].pc.answer.record), q.response.value,
                               q.policy.maxResultBytes)
            && q.cap.client.sent == HttpRun.Body(q.response.value)
  {
    StoredHolds(w, before, e);
    StoredBeforeEnd(before, e);
    HeldReplays(w.requests[e], RowOf(w, e).value);
    LaterReplayed(w, w.sys.execs[e].op.id, after, d, now);
  }

  // ----- it does happen: a stream that is read to its end is stored, closed and seen

  /** Reached by execution 0 alone. */
  ghost predicate Reached(w: World) { exists evs :: ReachedBy(w, evs) }

  ghost predicate ReachedBy(w: World, evs: seq<Event>) {
    w == Run(INIT, evs) && Capped(evs) && forall ev :: ev in evs ==> Single(ev)
  }

  predicate Single(ev: Event) {
    match ev
    case Request(e, _, _) => e == 0
    case Store(pev) => pev.Do? && pev.e == 0
    case Inside(e, _) => e == 0
  }

  lemma {:induction false} RunAppend(w: World, evs: seq<Event>, more: seq<Event>)
    ensures Run(w, evs + more) == Run(Run(w, evs), more)
    decreases |evs|
  {
    if evs == [] {
      assert evs + more == more;
    } else {
      assert (evs + more)[1..] == evs[1..] + more;
      RunAppend(Apply(w, evs[0]), evs[1..], more);
    }
  }

  lemma ReachStep(w: World, ev: Event)
    requires Reached(w) && Single(ev) && (ev.Request? ==> ev.policy.maxResultBytes >= 0)
    ensures Reached(Apply(w, ev))
  {
    var evs :| ReachedBy(w, evs);
    RunAppend(INIT, evs, [ev]);
    assert Run(w, [ev]) == Run(Apply(w, ev), []);
    assert ReachedBy(Apply(w, ev), evs + [ev]);
  }

  /** Where there is no other execution, none overwrites. */
  lemma {:induction false} AloneKept(w: World, evs: seq<Event>, k: Id, p: Payload)
    requires forall ev :: ev in evs ==> Single(ev)
    ensures ProtocolTheorems.NotOverwritten(w.sys, Trace(w, evs), 0, k, p)
    decreases |evs|
  {
    if evs != [] {
      var rest := Trace(Apply(w, evs[0]), evs[1..]);
      AloneKept(Apply(w, evs[0]), evs[1..], k, p);
      if Enabled(w, evs[0]) && Part(w, evs[0]).Some? {
        var pev := Part(w, evs[0]).value;
        assert evs[0] in evs && Single(evs[0]);
        assert ([pev] + rest)[0] == pev && ([pev] + rest)[1..] == rest && (pev.Do? ==> pev.e == 0);
        assert Apply(w, evs[0]).sys == Protocol.Apply(w.sys, pev);
      } else {
        assert [] + rest == rest;
      }
    }
  }

  /** Request 0 holds the latest claim, in flight until `until`; its handler has answered with `response`, if at all. */
  ghost predicate Claimed(w: World, op: Operation, policy: Policy, until: int, response: Option<HttpRun.Response>) {
    && Reached(w) && 0 in w.requests && 0 in w.sys.execs
    && var q, x := w.requests[0], w.sys.execs[0];
       && x.op == op && x.policy == policy == q.policy && !x.crashed && !q.finished
       && x.pc == q.pc && q.response == response
       && ProtocolTheorems.Latest(w.sys.At(op.id), x) && x.claim.value.fence == 1
       && w.sys.At(op.id).row.value.state == InFlight && w.sys.At(op.id).row.value.expiresAt == until
  }

  lemma Begins(op: Operation, policy: Policy, now: int)
    requires policy.maxResultBytes >= 0
    ensures var w := Apply(Apply(INIT, Request(0, op, policy)),
                           Store(Protocol.Do(0, Protocol.CallBegin(now, Protocol.Delivered))));
            Claimed(w, op, policy, now + policy.ttlMs, None) && w.requests[0].pc == AwaitRun(1, true)
            && w.requests[0].cap == Capture.FRESH
  {
    assert ReachedBy(INIT, []);
    ReachStep(INIT, Request(0, op, policy));
    ReachStep(Apply(INIT, Request(0, op, policy)),
              Store(Protocol.Do(0, Protocol.CallBegin(now, Protocol.Delivered))));
  }

  lemma Responds(w: World, op: Operation, policy: Policy, until: int, r: HttpRun.Response)
    requires Claimed(w, op, policy, until, None) && w.requests[0].pc == AwaitRun(1, true) && HttpRun.Streaming(r)
    ensures var w' := Apply(w, Inside(0, HttpRun.HandlerResponds(r)));
            Claimed(w', op, policy, until, Some(r)) && w'.requests[0].pc == AwaitRun(1, true)
            && w'.requests[0].cap == Capture.FRESH && w'.requests[0].handed
  {
    ReachStep(w, Inside(0, HttpRun.HandlerResponds(r)));
  }

  lemma Streams(w: World, op: Operation, policy: Policy, until: int, r: HttpRun.Response, cev: Capture.Event)
    requires Claimed(w, op, policy, until, Some(r)) && w.requests[0].pc == AwaitRun(1, true)
    requires HttpRun.Streaming(r) && !cev.Close? && !cev.Fail? && w.requests[0].handed
    ensures var w' := Apply(w, Inside(0, HttpRun.Stream(cev)));
            Claimed(w', op, policy, until, Some(r)) && w'.requests[0].pc == AwaitRun(1, true)
            && w'.requests[0].handed
            && w'.requests[0].cap == Capture.Apply(r.body.value, w.requests[0].cap, cev, policy.maxResultBytes)
  {
    ReachStep(w, Inside(0, HttpRun.Stream(cev)));
  }

  lemma {:induction false} StreamsAll(w: World, op: Operation, policy: Policy, until: int, r: HttpRun.Response,
                                      cevs: seq<Capture.Event>) returns (w': World)
    requires Claimed(w, op, policy, until, Some(r)) && w.requests[0].pc == AwaitRun(1, true) && w.requests[0].handed
    requires HttpRun.Streaming(r) && forall cev :: cev in cevs ==> !cev.Close? && !cev.Fail?
    ensures Claimed(w', op, policy, until, Some(r)) && w'.requests[0].pc == AwaitRun(1, true)
    ensures w'.requests[0].handed
    ensures w'.requests[0].cap == Capture.Run(r.body.value, w.requests[0].cap, cevs, policy.maxResultBytes)
    decreases |cevs|
  {
    w' := w;
    if cevs != [] {
      Streams(w, op, policy, until, r, cevs[0]);
      w' := StreamsAll(Apply(w, Inside(0, HttpRun.Stream(cevs[0]))), op, policy, until, r, cevs[1..]);
    }
  }

  lemma {:induction false} PullsOnly(n: nat)
    ensures forall cev :: cev in Capture.Pulls(n) ==> !cev.Close? && !cev.Fail?
    decreases n
  {
    if n > 0 { PullsOnly(n - 1); }
  }

  function Result(r: HttpRun.Response, body: Bytes): StoredResult { HttpRun.Base(r).(body := Some(body)) }

  /** The copy is complete, so the engine completes the claim. */
  lemma Settles(w: World, op: Operation, policy: Policy, until: int, r: HttpRun.Response, now: int)
    requires Claimed(w, op, policy, until, Some(r)) && w.requests[0].pc == AwaitRun(1, true) && w.requests[0].handed
    requires HttpRun.Streaming(r) && w.requests[0].cap.end.stored.Resolved? && now < until
    requires policy.storeResult(Result(r, w.requests[0].cap.end.stored.body)) == Keep
    ensures var w1 := Apply(w, Inside(0, HttpRun.StoredSettles));
            var w2 := Apply(w1, Store(Protocol.Do(0, Protocol.CallComplete(now, Protocol.Delivered))));
            && Reached(w2) && 0 in w2.requests && 0 in w2.sys.execs
            && w2.sys.execs[0].pc == Done(Executed(Result(r, w.requests[0].cap.end.stored.body), true))
            && w2.requests[0] == w.requests[0].(pc := w2.sys.execs[0].pc)
            && w2.sys.execs[0].op == op && !w2.sys.execs[0].crashed
            && ProtocolTheorems.Latest(w2.sys.At(op.id), w2.sys.execs[0])
  {
    var w1 := Apply(w, Inside(0, HttpRun.StoredSettles));
    ReachStep(w, Inside(0, HttpRun.StoredSettles));
    assert w1.sys.execs[0].pc.AwaitComplete? && w1.requests[0].pc == w1.sys.execs[0].pc;
    assert w1.sys.At(op.id) == w.sys.At(op.id);
    ReachStep(w1, Store(Protocol.Do(0, Protocol.CallComplete(now, Protocol.Delivered))));
  }

  /**
   For every response with a body that ends cleanly, under a storeResult that keeps results, there is a run in which
   the client reads it to the end, sees the end with every byte, and the request is reported stored and holds the
   row: the theorems above are about something.
   */
  lemma StreamSeen(op: Operation, policy: Policy, r: HttpRun.Response, begun: int, done: int)
    requires policy.maxResultBytes >= 0 && done < begun + policy.ttlMs
    requires r.body.Some? && r.status != 204 && r.status != 205 && r.status != 304
    requires r.body.value.ending == Capture.End && forall res :: policy.storeResult(res) == Keep
    ensures exists w, evs ::
              && Capped(evs) && Stored(w, evs, 0) && w.sys.execs[0].op == op && w.requests[0].response == Some(r)
              && HttpRun.SawEnd(w.requests[0]) && w.requests[0].cap.client.sent == r.body.value.chunks
              && w.requests[0].cap.client.view == Capture.Closed
  {
    var src, n, until := r.body.value, |r.body.value.chunks| + 1, begun + policy.ttlMs;
    var w0 := Apply(Apply(INIT, Request(0, op, policy)),
                    Store(Protocol.Do(0, Protocol.CallBegin(begun, Protocol.Delivered))));
    Begins(op, policy, begun);
    Responds(w0, op, policy, until, r);
    PullsOnly(n);
    Capture.FreshInv(src, policy.maxResultBytes);
    Capture.PullsDeliver(src, Capture.FRESH, n, policy.maxResultBytes);
    var w1 := StreamsAll(Apply(w0, Inside(0, HttpRun.HandlerResponds(r))), op, policy, until, r, Capture.Pulls(n));
    Settles(w1, op, policy, until, r, done);
    var w2 := Apply(Apply(w1, Inside(0, HttpRun.StoredSettles)),
                    Store(Protocol.Do(0, Protocol.CallComplete(done, Protocol.Delivered))));
    Finishes(w2, op, r);
  }

  lemma Finishes(w: World, op: Operation, r: HttpRun.Response)
    requires Reached(w) && 0 in w.requests && 0 in w.sys.execs && HttpRun.Streaming(r)
    requires var q, x := w.requests[0], w.sys.execs[0];
             && x.pc.Done? && x.pc.answer.Executed? && x.pc.answer.stored && x.pc == q.pc && x.op == op && !x.crashed
             && ProtocolTheorems.Latest(w.sys.At(op.id), x)
             && q.response == Some(r) && q.handed && !q.finished
             && Capture.Delivered(r.body.value, q.cap) && q.cap.client.view == Capture.Open && q.cap.client.open
    ensures exists w', evs ::
              && Capped(evs) && Stored(w', evs, 0) && w'.sys.execs[0].op == op && w'.requests[0].response == Some(r)
              && HttpRun.SawEnd(w'.requests[0]) && w'.requests[0].cap.client.sent == r.body.value.chunks
              && w'.requests[0].cap.client.view == Capture.Closed
  {
    var w' := Apply(w, Inside(0, HttpRun.Finish));
    ReachStep(w, Inside(0, HttpRun.Finish));
    var evs :| ReachedBy(w', evs);
    assert w'.sys == w.sys;
    AloneKept(INIT, evs, op.id, PayloadOf(w'.sys.execs[0]));
    assert Stored(w', evs, 0);
  }
}
