/**
 One HTTP request through the bridge (`runIdempotent` in packages/core/src/http/run.ts): the engine, the
 capture of the handler's response, and what the client is handed and when; and the response a record replays.
 */
module HttpRun {
  import opened Types
  import opened Chunks
  import opened Engine
  import Capture

  const NULL_BODY_STATUS := {204, 205, 304}

  /** The handler's response: its status, its allowlisted headers, and its body stream if it has one. */
  datatype Response = Response(status: int, headers: seq<Header>, body: Option<Capture.Source>)

  predicate Streaming(r: Response) { r.body.Some? && r.status !in NULL_BODY_STATUS }

  /** The body a client may be sent: the response's own, except for a status that has none in HTTP. */
  function Body(r: Response): seq<Bytes> {
    if r.body.Some? && r.status != 204 && r.status != 205 && r.status != 304 then r.body.value.chunks else []
  }

  function Base(r: Response): StoredResult { StoredResult(Http, Some(r.status), Some(r.headers), None, None, None) }

  /**
   `handed` says that the client has been given the handler's response; `finished`, that the continuation of
   `execute` has run, which is what closes or fails the stream.
   */
  datatype Request = Request(
    policy: Policy,
    pc: Pc,
    response: Option<Response>,
    cap: Capture.State,
    handed: bool,
    finished: bool)

  function Fresh(policy: Policy): Request { Request(policy, AwaitBegin, None, Capture.FRESH, false, false) }

  datatype Event =
    | BeginReplies(reply: Reply<BeginOutcome>)
    | HandlerResponds(r: Response)
    | HandlerThrows
    | Stream(ev: Capture.Event)
    | StoredSettles
    | AbandonReturns
    | CompleteReturns(status: Reply<CompleteStatus>)
    | Finish

  predicate HasStream(q: Request) { q.response.Some? && Streaming(q.response.value) }

  predicate Enabled(q: Request, ev: Event) {
    match ev
    case BeginReplies(_) => q.pc.AwaitBegin?
    case HandlerResponds(_) => q.pc.AwaitRun? && q.response.None?
    case HandlerThrows => q.pc.AwaitRun? && q.response.None?
    case Stream(e) => HasStream(q) && !e.Close? && !e.Fail?
    case StoredSettles => q.pc.AwaitRun? && HasStream(q) && q.cap.end.stored != Capture.Pending
    case AbandonReturns => q.pc.AwaitAbandon?
    case CompleteReturns(_) => q.pc.AwaitComplete?
    case Finish => (q.pc.Done? || q.pc.Threw?) && !q.finished
  }

  /** A handler may respond with anything or throw; a settled copy is taken up; every end is finished. */
  lemma Unrestricted(q: Request, r: Response)
    ensures q.pc.AwaitRun? && q.response.None? ==> Enabled(q, HandlerResponds(r)) && Enabled(q, HandlerThrows)
    ensures q.pc.AwaitRun? && HasStream(q) && q.cap.end.stored != Capture.Pending ==> Enabled(q, StoredSettles)
    ensures (q.pc.Done? || q.pc.Threw?) && !q.finished ==> Enabled(q, Finish)
    ensures forall ev :: HasStream(q) && ev != Capture.Close && ev != Capture.Fail ==> Enabled(q, Stream(ev))
  {
  }

  function OnStream(q: Request, ev: Capture.Event): Capture.State
    requires HasStream(q)
  {
    Capture.Apply(q.response.value.body.value, q.cap, ev, q.policy.maxResultBytes)
  }

  /** What the engine is told when `run` returns; None while it goes on. */
  function HandlerEnd(q: Request, ev: Event): Option<Reply<StoredResult>> {
    match ev
    case HandlerResponds(r) => if Streaming(r) then None else Some(Answered(Base(r).(body := Some([]))))
    case HandlerThrows => Some(Failed)
    case StoredSettles =>
      if q.cap.end.stored.Resolved? && q.response.Some? then
        Some(Answered(Base(q.response.value).(body := Some(q.cap.end.stored.body))))
      else Some(Failed)
    case _ => None
  }

  function Apply(q: Request, ev: Event): Request {
    if !Enabled(q, ev) then q
    else match ev
         case BeginReplies(reply) => q.(pc := AfterBegin(q.policy, reply))
         case HandlerResponds(r) =>
           // A stream goes to the client at once; a bodiless result is complete at once.
           if Streaming(r) then q.(response := Some(r), cap := Capture.FRESH, handed := true)
           else q.(response := Some(r), pc := AfterRun(q.policy, q.pc.fence, q.pc.claimed, HandlerEnd(q, ev).value))
         case HandlerThrows => q.(pc := AfterRun(q.policy, q.pc.fence, q.pc.claimed, HandlerEnd(q, ev).value))
         case Stream(e) => q.(cap := OnStream(q, e))
         case StoredSettles => q.(pc := AfterRun(q.policy, q.pc.fence, q.pc.claimed, HandlerEnd(q, ev).value))
         case AbandonReturns => q.(pc := AfterAbandon(q.pc.result))
         case CompleteReturns(status) => q.(pc := AfterComplete(q.pc.pending, status))
         case Finish =>
           var ended := q.(finished := true);
           if q.response.None? then ended
           else if q.pc.Done? then
             ended.(handed := true, cap := if HasStream(q) then OnStream(q, Capture.Close) else q.cap)
           else
             ended.(handed := true, cap := if HasStream(q) then OnStream(q, Capture.Fail) else q.cap)
  }

  function Run(q: Request, evs: seq<Event>): Request
    decreases |evs|
  {
    if evs == [] then q else Run(Apply(q, evs[0]), evs[1..])
  }

  // ----- the order of settling and of what the client sees

  /** The client has been handed a bodiless response, or has seen its stream end cleanly. */
  predicate SawEnd(q: Request) {
    q.handed && q.response.Some? && (HasStream(q) ==> q.cap.client.view == Capture.Closed)
  }

  /** The result the capture produced, once it has. */
  predicate IsResult(q: Request, r: StoredResult) {
    q.response.Some? && r == Base(q.response.value).(body := r.body) && r.body.Some?
    && (if HasStream(q) then q.cap.end.stored == Capture.Resolved(r.body.value) else r.body.value == [])
  }

  ghost predicate PcOk(q: Request) {
    match q.pc
    case AwaitBegin => q.response.None?
    case AwaitRun(_, _) => q.response.Some? ==> HasStream(q)
    case AwaitAbandon(_, Some(r)) => IsResult(q, r)
    case AwaitAbandon(_, None) => q.response.Some? ==> HasStream(q)
    case AwaitComplete(_, r, p) => IsResult(q, r) && p == PayloadFor(q.policy, r)
    case Done(Executed(r, _)) => IsResult(q, r)
    case Done(_) => q.response.None?
    case Threw(ByHandler) => q.response.Some? ==> HasStream(q)
    case Threw(ByPredicate) => true
  }

  ghost predicate Inv(q: Request) {
    && PcOk(q)
    && (q.finished ==> q.pc.Done? || q.pc.Threw?)
    && (q.response.None? ==> !q.handed)
    && (HasStream(q) ==> q.handed)
    && (!HasStream(q) ==> q.cap == Capture.FRESH)
    && (q.finished && q.response.Some? ==> q.handed && (HasStream(q) ==> q.cap.client.view != Capture.Open))
    && (HasStream(q) && q.cap.client.view == Capture.Errored ==> q.cap.end.stored == Capture.Rejected || q.pc.Threw?)
    && (q.response.Some? && !HasStream(q) && q.handed ==> q.finished)
    && (HasStream(q) ==> Capture.Inv(q.response.value.body.value, q.cap, q.policy.maxResultBytes))
    && (HasStream(q) && q.cap.client.view == Capture.Closed ==>
          q.finished && q.pc.Done? && q.cap.client.sent == q.response.value.body.value.chunks)
  }

  lemma InvStream(q: Request, ev: Capture.Event)
    requires Inv(q) && Enabled(q, Stream(ev))
    ensures Inv(Apply(q, Stream(ev)))
  {
    Capture.InvStep(q.response.value.body.value, q.cap, ev, q.policy.maxResultBytes);
    if q.cap.client.view != Capture.Errored || q.cap.end.stored == Capture.Rejected {
      Capture.ErrorsOnlyRejected(q.response.value.body.value, q.cap, ev, q.policy.maxResultBytes);
    }
    if q.cap.end.settled { Capture.SettledStep(q.response.value.body.value, q.cap, ev, q.policy.maxResultBytes); }
    Capture.ClosesOnlyByClose(q.response.value.body.value, q.cap, ev, q.policy.maxResultBytes);
  }

  lemma InvFinish(q: Request)
    requires Inv(q) && Enabled(q, Finish)
    ensures Inv(Apply(q, Finish))
  {
    if HasStream(q) {
      var src := q.response.value.body.value;
      var ev := if q.pc.Done? then Capture.Close else Capture.Fail;
      Capture.InvStep(src, q.cap, ev, q.policy.maxResultBytes);
      if q.cap.end.settled { Capture.SettledStep(src, q.cap, ev, q.policy.maxResultBytes); }
      Capture.ClosesOnlyByClose(src, q.cap, ev, q.policy.maxResultBytes);
      if q.pc.Done? && q.cap.client.view == Capture.Open {
        Capture.ClosedIsWhole(src, q.cap, q.policy.maxResultBytes);
      }
    }
  }

  lemma InvStep(q: Request, ev: Event)
    requires Inv(q) && q.policy.maxResultBytes >= 0
    ensures Inv(Apply(q, ev))
  {
    if Enabled(q, ev) {
      match ev
      case Stream(e) => InvStream(q, e);
      case Finish => InvFinish(q);
      case HandlerResponds(r) =>
        if Streaming(r) { Capture.FreshInv(r.body.value, q.policy.maxResultBytes); }
      case _ =>
    }
  }

  lemma {:induction false} InvRun(q: Request, evs: seq<Event>)
    requires Inv(q) && q.policy.maxResultBytes >= 0
    ensures Inv(Run(q, evs)) && Run(q, evs).policy == q.policy
    decreases |evs|
  {
    if evs != [] {
      InvStep(q, evs[0]);
      InvRun(Apply(q, evs[0]), evs[1..]);
    }
  }

  /** What a client that saw the end knows. */
  lemma SeenEnd(q: Request)
    requires Inv(q) && SawEnd(q)
    ensures (q.pc.Done? && q.pc.answer.Executed?) || (q.pc == Threw(ByPredicate) && !HasStream(q))
    ensures q.pc.Done? ==> q.cap.client.sent == Body(q.response.value)
  {
  }

  /**
   A client sees the end of a body only after the engine is done, that is after the settling call returned
   (or there was no claim to settle), and has by then received the whole body. A bodiless response reaches it
   only then too, except when the caller's storeResult threw. Whenever the engine answers `executed` there is
   a captured response to hand out.
   */
  lemma EndSeenAfterSettling(policy: Policy, evs: seq<Event>)
    requires policy.maxResultBytes >= 0
    ensures var q := Run(Fresh(policy), evs);
            && (SawEnd(q) && HasStream(q) ==>
                  q.pc.Done? && q.pc.answer.Executed? && q.cap.client.sent == q.response.value.body.value.chunks)
            && (SawEnd(q) && !HasStream(q) ==>
                  (q.pc.Done? && q.pc.answer.Executed?) || q.pc == Threw(ByPredicate))
            && (q.pc.Done? && q.pc.answer.Executed? ==> q.response.Some?)
  {
    InvRun(Fresh(policy), evs);
  }

  /**
   What the client of every response is left with when the request is finished. It has been handed the response.
   After an answer it has all of the body and a clean end, after a throw an error; unless it had left.
   */
  lemma FinishedView(policy: Policy, evs: seq<Event>)
    requires policy.maxResultBytes >= 0
    ensures var q := Run(Fresh(policy), evs);
            q.finished && q.response.Some? ==>
              && q.handed && (q.pc.Done? ==> q.pc.answer.Executed?)
              && (q.cap.client.view != Capture.Gone ==>
                    && (q.pc.Done? ==> q.cap.client.sent == Body(q.response.value))
                    && (HasStream(q) ==>
                          q.cap.client.view == if q.pc.Done? then Capture.Closed else Capture.Errored))
  {
    InvRun(Fresh(policy), evs);
  }

  /**
   In every run a client is sent a prefix of the response's own body, whole chunks in order, and is handed a
   response with a body at once.
   */
  lemma ClientBytes(policy: Policy, evs: seq<Event>)
    requires policy.maxResultBytes >= 0
    ensures var q := Run(Fresh(policy), evs);
            && (q.response.Some? ==> q.cap.client.sent <= Body(q.response.value))
            && (q.response.Some? && Body(q.response.value) != [] ==> q.handed)
  {
    InvRun(Fresh(policy), evs);
  }

  /** The result of an answered request is made of its response: status, headers, and a copy of the body. */
  lemma ResultOfResponse(q: Request)
    requires Inv(q) && q.policy.maxResultBytes >= 0 && q.pc.Done? && q.pc.answer.Executed?
    ensures q.response.Some?
    ensures var res, r := q.pc.answer.result, q.response.value;
            && res.body.Some? && IsCopy(res.body.value, Body(r), q.policy.maxResultBytes)
            && res == StoredResult(Http, Some(r.status), Some(r.headers), res.body, None, None)
  {
    var body := Body(q.response.value);
    if HasStream(q) {
      assert body[..q.cap.pos] == body;
      CapPrefixIsCopy(body, q.policy.maxResultBytes);
    }
  }

  /** That exception happens: the client is handed a bodiless response although nothing was settled. */
  lemma BodilessEscapes(policy: Policy, fence: int, r: Response)
    requires !Streaming(r) && policy.storeResult(Base(r).(body := Some([]))) == Raise
    ensures var q := Apply(Apply(Apply(Fresh(policy), BeginReplies(Answered(Acquired(fence)))), HandlerResponds(r)),
                           Finish);
            SawEnd(q) && q.pc == Threw(ByPredicate) && q.response == Some(r)
  {
  }

  // ----- replay

  const REPLAYED := "idempotency-replayed"
  const OMITTED := "idempotency-replay"

  function SetHeader(hs: seq<Header>, name: string, value: string): seq<Header> {
    Without(hs, name) + [(name, value)]
  }

  function Without(hs: seq<Header>, name: string): (r: seq<Header>)
    ensures forall h :: h in r <==> h in hs && h.0 != name
  {
    if hs == [] then [] else (if hs[0].0 == name then [] else [hs[0]]) + Without(hs[1..], name)
  }

  datatype Sent = Sent(status: int, headers: seq<Header>, body: Bytes)

  function ReplayResponse(rec: Record): Sent {
    var status := if rec.result.Some? && rec.result.value.status.Some? then rec.result.value.status.value else 200;
    var stored := if rec.result.Some? && rec.result.value.headers.Some? then rec.result.value.headers.value else [];
    var marked := SetHeader(stored, REPLAYED, "true");
    var headers := if rec.resultOmitted then SetHeader(marked, OMITTED, "omitted") else marked;
    var body := if rec.result.Some? then rec.result.value.body else None;
    var useBody := !rec.resultOmitted && body.Some? && |body.value| > 0 && status !in NULL_BODY_STATUS;
    Sent(status, headers, if useBody then body.value else [])
  }

  /** The replay of a stored response: same status and stored headers, and the body unless it was over the cap. */
  predicate Replays(w: Sent, r: Response, cap: int) {
    && w.status == r.status
    && Marked(w.headers, r.headers, Total(Body(r)) > cap)
    && w.body == (if Total(Body(r)) <= cap then Flatten(Body(r)) else [])
  }

  /** The stored headers in their order and number, and the marks: the second one exactly when the body was omitted. */
  predicate Marked(hs: seq<Header>, stored: seq<Header>, omitted: bool) {
    if omitted then BothSet(hs, stored, ("idempotency-replayed", "true"), ("idempotency-replay", "omitted"))
    else IsSet(hs, ("idempotency-replayed", "true"))
         && Without(hs, "idempotency-replayed") == Without(stored, "idempotency-replayed")
  }

  /** The header is there, and none of its name with another value. */
  predicate IsSet(hs: seq<Header>, h: Header) { h in hs && forall g :: g in hs && g.0 == h.0 ==> g == h }

  predicate BothSet(hs: seq<Header>, stored: seq<Header>, g: Header, h: Header) {
    IsSet(hs, g) && IsSet(hs, h) && Without(Without(hs, g.0), h.0) == Without(Without(stored, g.0), h.0)
  }

  /** Leaving out a name takes out its headers and nothing else, in order. */
  lemma {:induction false} WithoutNone(hs: seq<Header>, name: string)
    requires forall h :: h in hs ==> h.0 != name
    ensures Without(hs, name) == hs
    decreases |hs|
  {
    if hs != [] { WithoutNone(hs[1..], name); }
  }

  lemma {:induction false} WithoutPush(hs: seq<Header>, h: Header, name: string)
    ensures Without(hs + [h], name) == Without(hs, name) + (if h.0 == name then [] else [h])
    decreases |hs|
  {
    if hs == [] {
      assert hs + [h] == [h] && [h][1..] == [];
    } else {
      assert (hs + [h])[1..] == hs[1..] + [h];
      WithoutPush(hs[1..], h, name);
    }
  }

  lemma {:induction false} WithoutTwice(hs: seq<Header>, a: string, b: string)
    ensures Without(Without(hs, a), b) == Without(Without(hs, b), a)
    ensures Without(Without(hs, a), a) == Without(hs, a)
    decreases |hs|
  {
    if hs != [] {
      WithoutTwice(hs[1..], a, b);
      var x, y := Without(hs[1..], a), Without(hs[1..], b);
      assert ([hs[0]] + x)[1..] == x && ([hs[0]] + y)[1..] == y;
      assert [] + x == x && [] + y == y;
    }
  }

  /** Setting a header leaves the others as they are. */
  lemma SetLeaves(hs: seq<Header>, name: string, value: string)
    ensures Without(SetHeader(hs, name, value), name) == Without(hs, name)
  {
    WithoutPush(Without(hs, name), (name, value), name);
    WithoutTwice(hs, name, name);
  }

  lemma SetTwice(hs: seq<Header>, g: Header, h: Header)
    requires g.0 != h.0
    ensures BothSet(SetHeader(SetHeader(hs, g.0, g.1), h.0, h.1), hs, g, h)
  {
    var marked := SetHeader(hs, g.0, g.1);
    var both := SetHeader(marked, h.0, h.1);
    SetLeaves(hs, g.0, g.1);
    SetLeaves(marked, h.0, h.1);
    WithoutTwice(both, g.0, h.0);
    WithoutTwice(marked, g.0, h.0);
  }

  /** Status and body of a replay: 200 where none was stored; a body only if stored, kept, and allowed by the status. */
  lemma ReplayExact(rec: Record)
    ensures var w := ReplayResponse(rec);
            && w.status == (if rec.result.Some? && rec.result.value.status.Some? then rec.result.value.status.value
                            else 200)
            && w.body == (if rec.resultOmitted || rec.result.None? || rec.result.value.body.None?
                             || w.status == 204 || w.status == 205 || w.status == 304 then []
                          else rec.result.value.body.value)
  {
  }

  lemma ReplayMarked(rec: Record, stored: seq<Header>)
    requires rec.result.Some? && rec.result.value.headers == Some(stored)
    ensures Marked(ReplayResponse(rec).headers, stored, rec.resultOmitted)
  {
    SetLeaves(stored, REPLAYED, "true");
    assert |REPLAYED| != |OMITTED|;
    SetTwice(stored, (REPLAYED, "true"), (OMITTED, "omitted"));
  }

  lemma ReplayOfCopy(rec: Record, r: Response, copy: Bytes, policy: Policy)
    requires policy.maxResultBytes >= 0
    requires IsCopy(copy, Body(r), policy.maxResultBytes)
    requires var p := PayloadFor(policy, Base(r).(body := Some(copy)));
             rec.result == Some(p.Stored()) && rec.resultOmitted == p.Omitted?
    ensures Replays(ReplayResponse(rec), r, policy.maxResultBytes)
  {
    CopyOverCap(copy, Body(r), policy.maxResultBytes);
    ReplayMarked(rec, r.headers);
  }
}
