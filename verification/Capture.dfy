/**
 Response capture (`captureResponse` in packages/core/src/http/capture.ts) for a streaming body. The handler's
 chunks go to the client, one source read per pull, while a copy is kept up to the cap; a cancelled client
 leaves the rest to a drain. Reads of the source resolve in the order they were issued.
 */
module Capture {
  import opened Types
  import opened Chunks

  datatype Ending = End | Error

  /** What the handler's stream will deliver. */
  datatype Source = Source(chunks: seq<Bytes>, ending: Ending)

  datatype Reader = Pull | Drain

  /** The promise the engine waits for. */
  datatype Promise = Pending | Resolved(body: Bytes) | Rejected

  /** The client's stream: still open, closed cleanly, errored, or cancelled by the client. */
  datatype View = Open | Closed | Errored | Gone

  datatype Copy = Copy(chunks: seq<Bytes>, size: int, overCap: bool)

  datatype Client = Client(open: bool, view: View, sent: seq<Bytes>, cancelled: bool)

  /** `settlements` counts the calls that resolved or rejected the promise; `failed`, a fail() that settled it. */
  datatype Outlook = Outlook(settled: bool, stored: Promise, settlements: nat, failed: bool)

  /** `pos` chunks have been read; `queue` holds who waits for the next reads, oldest first. */
  datatype State = State(copy: Copy, client: Client, end: Outlook, pos: nat, queue: seq<Reader>)

  const FRESH := State(Copy([], 0, false), Client(true, Open, [], false), Outlook(false, Pending, 0, false), 0, [])

  /**
   What can happen next: the stream pulls, the oldest read resolves, the client goes away, the stream reports
   that to us, or the caller closes or fails the response.
   */
  datatype Event = OnPull | OnRead | ClientLeaves | OnCancel | Close | Fail

  datatype Outcome = Value(chunk: Bytes) | Finished | Broken

  predicate Enabled(s: State, ev: Event) {
    match ev
    case OnPull => s.client.view == Open && Pull !in s.queue
    case OnRead => s.queue != []
    case ClientLeaves => s.client.view == Open
    case OnCancel => s.client.view == Gone && !s.client.cancelled
    case _ => true
  }

  /** A read after the settlement finds the lock released and fails; before it, the source decides. */
  function NextOutcome(src: Source, s: State): Outcome {
    if s.end.settled then Broken
    else if s.pos < |src.chunks| then Value(src.chunks[s.pos])
    else if src.ending == End then Finished else Broken
  }

  function Buffered(c: Copy, value: Bytes, cap: int): Copy {
    if c.overCap then c else Copy(c.chunks + [value], c.size + |value|, c.size + |value| > cap)
  }

  /** A chunk read for a pull is enqueued; that fails when the client has left without our knowing it yet. */
  function Offered(c: Client, value: Bytes): Client {
    if !c.open then c else if c.view == Open then c.(sent := c.sent + [value]) else c.(open := false)
  }

  function Finish(e: Outlook, copy: Copy, broken: bool): Outlook {
    if e.settled then e
    else Outlook(true, if broken then Rejected else Resolved(Flatten(copy.chunks)), e.settlements + 1, e.failed)
  }

  /** Erroring a stream the client has cancelled does nothing to it. */
  function Broke(c: Client): Client {
    if c.open then c.(open := false, view := if c.view == Open then Errored else c.view) else c
  }

  /** The oldest read delivered a chunk; a drain asks for the next one. */
  function Took(s: State, value: Bytes, cap: int): State
    requires s.queue != []
  {
    if s.queue[0] == Pull then
      State(Buffered(s.copy, value, cap), Offered(s.client, value), s.end, s.pos + 1, s.queue[1..])
    else
      State(Buffered(s.copy, value, cap), s.client, s.end, s.pos + 1, s.queue[1..] + [Drain])
  }

  /** The oldest read found the end of the source, or failed. */
  function Stopped(s: State, broken: bool): State
    requires s.queue != []
  {
    s.(client := if broken && s.queue[0] == Pull then Broke(s.client) else s.client,
       end := Finish(s.end, s.copy, broken),
       queue := s.queue[1..])
  }

  function Read(src: Source, s: State, cap: int): State
    requires s.queue != []
  {
    match NextOutcome(src, s)
    case Value(c) => Took(s, c, cap)
    case _ => Stopped(s, NextOutcome(src, s).Broken?)
  }

  function Apply(src: Source, s: State, ev: Event, cap: int): State {
    if !Enabled(s, ev) then s
    else match ev
         case OnPull => if s.end.settled then s else s.(queue := s.queue + [Pull])
         case OnRead => Read(src, s, cap)
         case ClientLeaves => s.(client := s.client.(view := Gone))
         case OnCancel =>
           s.(client := s.client.(open := false, cancelled := true),
              queue := if s.end.settled then s.queue else s.queue + [Drain])
         case Close =>
           if !s.client.open then s
           else s.(client := s.client.(open := false, view := if s.client.view == Open then Closed else s.client.view))
         case Fail =>
           if !s.client.open then s
           else s.(client := s.client.(open := false, view := if s.client.view == Open then Errored else s.client.view),
                   end := if s.end.settled then s.end else Finish(s.end, s.copy, true).(failed := true))
  }

  function Run(src: Source, s: State, evs: seq<Event>, cap: int): State
    decreases |evs|
  {
    if evs == [] then s else Run(src, Apply(src, s, evs[0], cap), evs[1..], cap)
  }

  // ----- the invariant

  ghost predicate CopyOk(src: Source, c: Copy, pos: nat, cap: int) {
    && pos <= |src.chunks|
    && c.chunks == CapPrefix(src.chunks[..pos], cap)
    && c.size == Total(c.chunks)
    && c.overCap == (c.size > cap)
  }

  ghost predicate ClientOk(src: Source, c: Client, pos: nat) {
    && |c.sent| <= pos <= |src.chunks| && c.sent == src.chunks[..|c.sent|]
    && (c.open ==> |c.sent| == pos && !c.cancelled && (c.view == Open || c.view == Gone))
    && (c.view == Open ==> c.open)
    && (c.view == Closed ==> !c.cancelled)
  }

  /** At most one pull and one drain are waiting, the pull first; an unsettled drain is never stuck. */
  ghost predicate QueueOk(s: State) {
    && (s.queue == [] || s.queue == [Pull] || s.queue == [Drain] || s.queue == [Pull, Drain])
    && (Drain in s.queue ==> s.client.cancelled)
    && (s.client.cancelled && !s.end.settled ==> Drain in s.queue)
    && (s.end.settled && s.queue != [] ==> !s.client.open)
  }

  ghost predicate EndOk(src: Source, s: State) {
    && s.end.settlements == (if s.end.settled then 1 else 0)
    && (s.end.settled <==> s.end.stored != Pending)
    && (s.end.stored.Resolved? ==>
          s.pos == |src.chunks| && src.ending == End && s.end.stored.body == Flatten(s.copy.chunks))
    && (s.end.stored.Rejected? ==> s.end.failed || (s.pos == |src.chunks| && src.ending == Error))
  }

  ghost predicate Inv(src: Source, s: State, cap: int) {
    CopyOk(src, s.copy, s.pos, cap) && ClientOk(src, s.client, s.pos) && QueueOk(s) && EndOk(src, s)
  }

  lemma BufferedOk(src: Source, c: Copy, pos: nat, cap: int)
    requires CopyOk(src, c, pos, cap) && pos < |src.chunks|
    ensures CopyOk(src, Buffered(c, src.chunks[pos], cap), pos + 1, cap)
  {
    assert src.chunks[..pos + 1][..pos] == src.chunks[..pos];
    FlattenPush(c.chunks, src.chunks[pos]);
  }

  lemma OfferedOk(src: Source, c: Client, pos: nat)
    requires ClientOk(src, c, pos) && pos < |src.chunks|
    ensures ClientOk(src, Offered(c, src.chunks[pos]), pos + 1)
  {
    assert src.chunks[..pos + 1] == src.chunks[..pos] + [src.chunks[pos]];
  }

  /** A chunk read by the drain: the client is out of it. */
  lemma SkippedOk(src: Source, c: Client, pos: nat)
    requires ClientOk(src, c, pos) && pos < |src.chunks| && c.cancelled
    ensures ClientOk(src, c, pos + 1)
  {
  }

  lemma TookQueue(q: seq<Reader>)
    requires q == [Pull] || q == [Drain] || q == [Pull, Drain]
    ensures q[1..] == if |q| == 1 then [] else [Drain]
    ensures q[0] == Drain ==> q[1..] + [Drain] == q
  {
  }

  lemma TookWaits(src: Source, s: State, value: Bytes, cap: int)
    requires QueueOk(s) && EndOk(src, s) && s.queue != [] && !s.end.settled
    ensures QueueOk(Took(s, value, cap)) && EndOk(src, Took(s, value, cap))
  {
    TookQueue(s.queue);
  }

  lemma InvChunk(src: Source, s: State, cap: int)
    requires Inv(src, s, cap) && s.queue != [] && NextOutcome(src, s).Value?
    ensures Inv(src, Took(s, src.chunks[s.pos], cap), cap)
  {
    BufferedOk(src, s.copy, s.pos, cap);
    TookWaits(src, s, src.chunks[s.pos], cap);
    if s.queue[0] == Pull { OfferedOk(src, s.client, s.pos); } else { SkippedOk(src, s.client, s.pos); }
  }

  lemma InvLast(src: Source, s: State, cap: int)
    requires Inv(src, s, cap) && s.queue != [] && !NextOutcome(src, s).Value?
    ensures Inv(src, Read(src, s, cap), cap)
  {
  }

  lemma InvRead(src: Source, s: State, cap: int)
    requires Inv(src, s, cap) && s.queue != []
    ensures Inv(src, Read(src, s, cap), cap)
  {
    if NextOutcome(src, s).Value? { InvChunk(src, s, cap); } else { InvLast(src, s, cap); }
  }

  lemma InvStep(src: Source, s: State, ev: Event, cap: int)
    requires Inv(src, s, cap)
    ensures Inv(src, Apply(src, s, ev, cap), cap)
  {
    if ev == OnRead && s.queue != [] { InvRead(src, s, cap); }
  }

  lemma {:induction false} InvRun(src: Source, s: State, evs: seq<Event>, cap: int)
    requires Inv(src, s, cap)
    ensures Inv(src, Run(src, s, evs, cap), cap)
    decreases |evs|
  {
    if evs != [] {
      InvStep(src, s, evs[0], cap);
      InvRun(src, Apply(src, s, evs[0], cap), evs[1..], cap);
    }
  }

  lemma FreshInv(src: Source, cap: nat)
    ensures Inv(src, FRESH, cap)
  {
  }

  // ----- what holds in every interleaving

  /**
   The record settles at most once, and for good. When it resolves, the source was read to its clean end and
   the copy is the whole body if that fits the cap, else the shortest chunk prefix that does not. The client
   has received a chunk prefix of the source.
   */
  lemma CaptureCorrect(src: Source, evs: seq<Event>, cap: nat)
    ensures var s := Run(src, FRESH, evs, cap);
            && s.end.settlements <= 1 && (s.end.settlements == 1 <==> s.end.stored != Pending)
            && s.client.sent <= src.chunks
            && (s.end.stored.Resolved? ==> src.ending == End && IsCopy(s.end.stored.body, src.chunks, cap))
  {
    FreshInv(src, cap);
    InvRun(src, FRESH, evs, cap);
    var s := Run(src, FRESH, evs, cap);
    if s.end.stored.Resolved? {
      assert src.chunks[..s.pos] == src.chunks;
      CapPrefixIsCopy(src.chunks, cap);
    }
  }

  lemma SettledStep(src: Source, s: State, ev: Event, cap: int)
    requires s.end.settled
    ensures Apply(src, s, ev, cap).end.settled && Apply(src, s, ev, cap).end.stored == s.end.stored
  {
  }

  /** The client's stream ends cleanly only by a close, and then stays as it is. */
  lemma ClosesOnlyByClose(src: Source, s: State, ev: Event, cap: int)
    requires Inv(src, s, cap)
    ensures var t := Apply(src, s, ev, cap);
            && (t.client.view == Closed && s.client.view != Closed ==> ev == Close && s.client.view == Open)
            && (s.client.view == Closed ==> t.client.view == Closed && t.client.sent == s.client.sent)
  {
  }

  /** A settled promise never changes again. */
  lemma {:induction false} SettledForGood(src: Source, s: State, evs: seq<Event>, cap: int)
    requires s.end.settled
    ensures Run(src, s, evs, cap).end.settled && Run(src, s, evs, cap).end.stored == s.end.stored
    decreases |evs|
  {
    if evs != [] { SettledForGood(src, Apply(src, s, evs[0], cap), evs[1..], cap); }
  }

  /** How many reads of the source resolve in a run. */
  function Resolutions(src: Source, s: State, evs: seq<Event>, cap: int): nat
    decreases |evs|
  {
    if evs == [] then 0
    else
      (if evs[0] == OnRead && s.queue != [] then 1 else 0)
      + Resolutions(src, Apply(src, s, evs[0], cap), evs[1..], cap)
  }

  /** Pull or drain: once one read more than there are chunks left has resolved, the record has settled. */
  lemma {:induction false} ReadsSettle(src: Source, s: State, evs: seq<Event>, cap: int)
    requires Inv(src, s, cap) && Resolutions(src, s, evs, cap) > |src.chunks| - s.pos
    ensures Run(src, s, evs, cap).end.settled
    decreases |evs|
  {
    var t := Apply(src, s, evs[0], cap);
    if t.end.settled {
      SettledForGood(src, t, evs[1..], cap);
    } else {
      InvStep(src, s, evs[0], cap);
      ReadsSettle(src, t, evs[1..], cap);
    }
  }

  function ReadCount(evs: seq<Event>): nat
    decreases |evs|
  {
    if evs == [] then 0 else (if evs[0] == OnRead then 1 else 0) + ReadCount(evs[1..])
  }

  /** After a cancel the copy needs nobody to pull: a read is waiting until the record has settled. */
  lemma {:induction false} DrainSettles(src: Source, s: State, evs: seq<Event>, cap: int)
    requires Inv(src, s, cap) && s.client.cancelled
    requires ReadCount(evs) > |src.chunks| - s.pos
    ensures Run(src, s, evs, cap).end.settled
    decreases |evs|
  {
    var t := Apply(src, s, evs[0], cap);
    if t.end.settled {
      SettledForGood(src, t, evs[1..], cap);
    } else {
      InvStep(src, s, evs[0], cap);
      DrainSettles(src, t, evs[1..], cap);
    }
  }

  /** A client whose stream was closed after a resolved settlement has received the whole body. */
  lemma ClosedIsWhole(src: Source, s: State, cap: int)
    requires Inv(src, s, cap) && s.end.stored.Resolved? && s.client.view == Open
    ensures var t := Apply(src, s, Close, cap);
            t.client.view == Closed && t.client.sent == src.chunks
  {
    assert src.chunks[..|src.chunks|] == src.chunks;
  }

  // ----- progress

  /** The stream may pull, a read resolve, the client leave and the caller end the stream at any time. */
  lemma Unrestricted(s: State)
    ensures s.client.view == Open ==> Enabled(s, ClientLeaves) && (Pull !in s.queue ==> Enabled(s, OnPull))
    ensures s.queue != [] ==> Enabled(s, OnRead)
    ensures s.client.view == Gone && !s.client.cancelled ==> Enabled(s, OnCancel)
    ensures Enabled(s, Close) && Enabled(s, Fail)
  {
  }

  /** A client that leaves is gone for good, and its cancel hands a copy that has not settled to the drain. */
  lemma LeavesToDrain(src: Source, s: State, cap: int)
    requires Inv(src, s, cap) && s.client.view == Open
    ensures var t := Apply(src, s, ClientLeaves, cap);
            var u := Apply(src, t, OnCancel, cap);
            && t.client.view == Gone && t == s.(client := t.client)
            && u.client.cancelled && !u.client.open && u.client.sent == s.client.sent
            && (!s.end.settled ==> Drain in u.queue) && u.copy == s.copy && u.end == s.end && u.pos == s.pos
  {
  }

  /** A fail errors a client that is still reading and rejects a record that has not settled. */
  lemma FailErrors(src: Source, s: State, cap: int)
    requires Inv(src, s, cap) && s.client.view == Open
    ensures var t := Apply(src, s, Fail, cap);
            && t.client.view == Errored && t.client.sent == s.client.sent
            && t.end.stored == (if s.end.settled then s.end.stored else Rejected)
  {
  }

  /** Nothing but a fail errors the client of a record that is not rejected. */
  lemma ErrorsOnlyRejected(src: Source, s: State, ev: Event, cap: int)
    requires Inv(src, s, cap) && ev != Fail
    requires s.client.view == Errored ==> s.end.stored == Rejected
    ensures var t := Apply(src, s, ev, cap);
            && (t.client.view == Errored ==> t.end.stored == Rejected)
            && (t.client.view == Open ==> s.client.view == Open)
  {
  }

  /** n times: the stream pulls, and the read resolves. */
  function Pulls(n: nat): seq<Event> { if n == 0 then [] else [OnPull, OnRead] + Pulls(n - 1) }

  /** The client reads, the record has not settled, and nobody waits for a read. */
  predicate Idle(s: State) { s.client.view == Open && !s.end.settled && s.queue == [] }

  function Pulled(src: Source, s: State, cap: int): State {
    Apply(src, Apply(src, s, OnPull, cap), OnRead, cap)
  }

  /** What a client that read to the end is left with: all chunks, and an open stream or the source's error. */
  predicate Delivered(src: Source, t: State) {
    && t.client.sent == src.chunks
    && (if src.ending == End then t.end.stored.Resolved? && t.client.view == Open
        else t.end.stored == Rejected && t.client.view == Errored)
  }

  lemma PullOnce(src: Source, s: State, cap: int)
    requires Inv(src, s, cap) && Idle(s)
    ensures var t := Pulled(src, s, cap);
            && Inv(src, t, cap)
            && (if s.pos < |src.chunks| then Idle(t) && t.pos == s.pos + 1 else Delivered(src, t))
  {
    InvStep(src, s, OnPull, cap);
    InvStep(src, Apply(src, s, OnPull, cap), OnRead, cap);
    assert s.pos == |src.chunks| ==> src.chunks[..s.pos] == src.chunks;
  }

  lemma PullsCons(src: Source, s: State, n: nat, cap: int)
    requires n > 0
    ensures Run(src, s, Pulls(n), cap) == Run(src, Pulled(src, s, cap), Pulls(n - 1), cap)
  {
    assert Pulls(n)[1..] == [OnRead] + Pulls(n - 1) && Pulls(n)[1..][1..] == Pulls(n - 1);
  }

  /** A client that keeps pulling receives every chunk, and when it has asked for one more the record has settled. */
  lemma {:induction false} PullsDeliver(src: Source, s: State, n: nat, cap: int)
    requires Inv(src, s, cap) && Idle(s) && n == |src.chunks| - s.pos + 1
    ensures Inv(src, Run(src, s, Pulls(n), cap), cap) && Delivered(src, Run(src, s, Pulls(n), cap))
    decreases n
  {
    PullOnce(src, s, cap);
    PullsCons(src, s, n, cap);
    if n == 1 { assert Pulls(0) == []; } else { PullsDeliver(src, Pulled(src, s, cap), n - 1, cap); }
  }

  // ----- the code

  /** body.set(chunk, offset). */
  method SetAt(body: array<byte>, chunk: Bytes, offset: nat)
    requires offset + |chunk| <= body.Length
    modifies body
    ensures body[..offset + |chunk|] == old(body[..offset]) + chunk
  {
    ghost var was := body[..offset];
    forall j | 0 <= j < |chunk| { body[offset + j] := chunk[j]; }
    assert body[..offset] == was;
  }

  method Concat(chunks: seq<Bytes>, size: nat) returns (body: array<byte>)
    requires size == Total(chunks)
    ensures fresh(body) && body[..] == Flatten(chunks)
  {
    body := new byte[size](_ => 0);
    var offset, i := 0, 0;
    assert chunks[..0] == [] && chunks[..|chunks|] == chunks;
    while i < |chunks|
      invariant 0 <= i <= |chunks|
      invariant offset == Total(chunks[..i]) <= size
      invariant body[..offset] == Flatten(chunks[..i])
    {
      FlattenNext(chunks, i);
      SetAt(body, chunks[i], offset);
      offset := offset + |chunks[i]|;
      i := i + 1;
    }
    assert body[..offset] == body[..];
  }

  /** Each method is one event on the state; `Inv` of that state is carried by InvStep. */
  class CaptureStream {
    const cap: int
    ghost const src: Source
    var chunks: seq<Bytes>
    var size: int
    var overCap: bool
    var clientOpen: bool
    var settled: bool
    var stored: Promise
    var view: View
    ghost var settlements: nat
    ghost var pos: nat
    ghost var queue: seq<Reader>
    ghost var sent: seq<Bytes>
    ghost var cancelled: bool
    ghost var failed: bool

    constructor (cap: nat, ghost src: Source)
      ensures this.cap == cap && this.src == src && S() == FRESH && Valid()
    {
      this.cap, this.src := cap, src;
      chunks, size, overCap, clientOpen, settled, stored, view := [], 0, false, true, false, Pending, Open;
      settlements, pos, queue, sent, cancelled, failed := 0, 0, [], [], false, false;
    }

    ghost function S(): State
      reads this
    {
      State(Copy(chunks, size, overCap), Client(clientOpen, view, sent, cancelled),
            Outlook(settled, stored, settlements, failed), pos, queue)
    }

    ghost predicate Valid()
      reads this
    {
      size == Total(chunks)
    }

    method DoRecord(value: Bytes)
      requires Valid()
      modifies this`chunks, this`size, this`overCap
      ensures Valid()
      ensures Copy(chunks, size, overCap) == Buffered(old(Copy(chunks, size, overCap)), value, cap)
    {
      if overCap { return; }
      FlattenPush(chunks, value);
      chunks := chunks + [value];
      size := size + |value|;
      if size > cap { overCap := true; }
    }

    /** c.enqueue(value), unless the client is known to be gone; an enqueue that throws makes it known. */
    method DoOffer(value: Bytes)
      modifies this`clientOpen, this`sent
      ensures Client(clientOpen, view, sent, cancelled)
              == Offered(old(Client(clientOpen, view, sent, cancelled)), value)
    {
      if clientOpen {
        if view == Open { sent := sent + [value]; } else { clientOpen := false; }
      }
    }

    /** c.error(error), unless the client is known to be gone. */
    method DoBreak()
      modifies this`clientOpen, this`view
      ensures Client(clientOpen, view, sent, cancelled) == Broke(old(Client(clientOpen, view, sent, cancelled)))
    {
      if clientOpen {
        clientOpen := false;
        if view == Open { view := Errored; }
      }
    }

    method DoFinish(broken: bool)
      requires Valid()
      modifies this`settled, this`stored, this`settlements
      ensures Outlook(settled, stored, settlements, failed)
              == Finish(old(Outlook(settled, stored, settlements, failed)), Copy(chunks, size, overCap), broken)
    {
      if settled { return; }
      settled := true;
      settlements := settlements + 1;
      if broken {
        stored := Rejected;
      } else {
        var body := Concat(chunks, size);
        stored := Resolved(body[..]);
      }
    }

    method DoPull()
      requires Valid() && Enabled(S(), OnPull)
      modifies this
      ensures Valid() && S() == Apply(src, old(S()), OnPull, cap)
    {
      if settled { return; }
      queue := queue + [Pull];
    }

    /** The pull's read delivered a chunk. */
    method PullChunk(value: Bytes)
      requires Valid() && queue != [] && queue[0] == Pull
      modifies this
      ensures Valid() && S() == Took(old(S()), value, cap)
    {
      queue := queue[1..];
      pos := pos + 1;
      DoOffer(value);
      DoRecord(value);
    }

    /** The continuation of the pull's read. */
    method PullRead(outcome: Outcome)
      requires Valid() && queue != [] && queue[0] == Pull && outcome == NextOutcome(src, S())
      modifies this
      ensures Valid() && S() == Apply(src, old(S()), OnRead, cap)
    {
      match outcome {
        case Broken =>
          queue := queue[1..];
          DoBreak();
          DoFinish(true);
        case Finished =>
          queue := queue[1..];
          DoFinish(false);
        case Value(value) => PullChunk(value);
      }
    }

    /** The drain's read delivered a chunk, and it asks for the next one. */
    method DrainChunk(value: Bytes)
      requires Valid() && queue != [] && queue[0] == Drain
      modifies this
      ensures Valid() && S() == Took(old(S()), value, cap)
    {
      queue := queue[1..];
      pos := pos + 1;
      DoRecord(value);
      queue := queue + [Drain];
    }

    /** The continuation of a read of the drain. */
    method DrainRead(outcome: Outcome)
      requires Valid() && queue != [] && queue[0] == Drain && outcome == NextOutcome(src, S())
      modifies this
      ensures Valid() && S() == Apply(src, old(S()), OnRead, cap)
    {
      match outcome {
        case Broken =>
          queue := queue[1..];
          DoFinish(true);
        case Finished =>
          queue := queue[1..];
          DoFinish(false);
        case Value(value) => DrainChunk(value);
      }
    }

    method DoCancel()
      requires Valid() && Enabled(S(), OnCancel)
      modifies this
      ensures Valid() && S() == Apply(src, old(S()), OnCancel, cap)
    {
      clientOpen := false;
      cancelled := true;
      if !settled { queue := queue + [Drain]; }
    }

    method DoClose()
      requires Valid()
      modifies this
      ensures Valid() && S() == Apply(src, old(S()), Close, cap)
    {
      if !clientOpen { return; }
      clientOpen := false;
      if view == Open { view := Closed; }
    }

    method DoFail()
      requires Valid()
      modifies this
      ensures Valid() && S() == Apply(src, old(S()), Fail, cap)
    {
      if !clientOpen { return; }
      clientOpen := false;
      if view == Open { view := Errored; }
      if !settled {
        failed := true;
        DoFinish(true);
      }
    }
  }
}
