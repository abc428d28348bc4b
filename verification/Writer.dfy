/**
 The Go response writer (go/internal/httpx/writer.go), which buffers at most the cap plus one byte, and the
 fact it shares with the TypeScript capture: what the engine stores does not depend on how the handler split
 its response.
 */
module Writer {
  import opened Types
  import opened Chunks
  import opened Engine

  datatype Buffer = Buffer(buf: Bytes, overCap: bool)

  /** What one Write adds to the copy. */
  function Push(b: Buffer, p: Bytes, limit: nat): Buffer
    requires |b.buf| <= limit + 1
  {
    if b.overCap then b
    else var room := limit + 1 - |b.buf|;
         if |p| >= room then Buffer(b.buf + p[..room], true) else Buffer(b.buf + p, false)
  }

  /** The first min(total, limit + 1) bytes, over the cap exactly when there are more than `limit`. */
  predicate Buffers(b: Buffer, body: Bytes, limit: nat) {
    && b.buf == (if |body| <= limit then body else body[..limit + 1])
    && b.overCap == (|body| > limit)
  }

  lemma PushBuffers(b: Buffer, body: Bytes, p: Bytes, limit: nat)
    requires Buffers(b, body, limit)
    ensures Buffers(Push(b, p, limit), body + p, limit)
  {
  }

  function PushAll(ps: seq<Bytes>, limit: nat): (b: Buffer)
    ensures |b.buf| <= limit + 1
  {
    if ps == [] then Buffer([], false)
    else Push(PushAll(ps[..|ps| - 1], limit), ps[|ps| - 1], limit)
  }

  lemma {:induction false} PushAllBuffers(ps: seq<Bytes>, limit: nat)
    ensures Buffers(PushAll(ps, limit), Flatten(ps), limit)
    decreases |ps|
  {
    if ps != [] {
      PushAllBuffers(ps[..|ps| - 1], limit);
      PushBuffers(PushAll(ps[..|ps| - 1], limit), Flatten(ps[..|ps| - 1]), ps[|ps| - 1], limit);
    }
  }

  /**
   In both languages, however the response was split: the engine stores every byte exactly when the total is
   at most the cap, and the omitted form otherwise.
   */
  lemma PayloadIgnoresChunking(policy: Policy, base: StoredResult, copy: Bytes, cs: seq<Bytes>, ps: seq<Bytes>)
    requires policy.maxResultBytes >= 0
    requires IsCopy(copy, cs, policy.maxResultBytes)
    requires Flatten(ps) == Flatten(cs)
    ensures var expected := if Total(cs) <= policy.maxResultBytes then Whole(base.(body := Some(Flatten(cs))))
                            else OmitBody(base);
            && PayloadFor(policy, base.(body := Some(copy))) == expected
            && PayloadFor(policy, base.(body := Some(PushAll(ps, policy.maxResultBytes).buf))) == expected
  {
    PushAllBuffers(ps, policy.maxResultBytes);
  }

  /** The status line, headers and bytes that reached the client. */
  datatype Wire = Wire(status: Option<int>, headers: seq<Header>, body: Bytes, informational: seq<int>)

  class CaptureWriter {
    var status: int
    var wroteHeader: bool
    var snapshot: seq<Header>
    var buf: Bytes
    const limit: nat
    var overCap: bool
    /** The handler's headers, in the sorted order they are stored in; it may change them at any time. */
    var header: seq<Header>
    var wire: Wire

    constructor (limit: nat)
      ensures Valid() && this.limit == limit && wire == Wire(None, [], [], [])
    {
      status, wroteHeader, snapshot, buf, overCap := 0, false, [], [], false;
      this.limit := limit;
      header, wire := [], Wire(None, [], [], []);
    }

    /** The copy is of what the client was sent: the final status and headers as they went out, and the body's start. */
    ghost predicate Valid()
      reads this
    {
      && Buffers(Buffer(buf, overCap), wire.body, limit)
      && (if wroteHeader then wire.status == Some(status) && wire.headers == snapshot
          else wire.status == None && wire.body == [])
    }

    method SetHeader(h: seq<Header>)
      requires Valid()
      modifies this`header
      ensures Valid() && header == h
    {
      header := h;
    }

    /** An informational status passes through; the first final one is recorded, and later ones are dropped. */
    method WriteHeader(code: int)
      requires Valid()
      modifies this
      ensures Valid() && header == old(header)
      ensures wire == if 100 <= code < 200 then old(wire).(informational := old(wire).informational + [code])
                      else if old(wroteHeader) then old(wire)
                      else old(wire).(status := Some(code), headers := header)
      ensures (wroteHeader <==> old(wroteHeader) || !(100 <= code < 200))
    {
      if code >= 100 && code < 200 {
        wire := wire.(informational := wire.informational + [code]);
        return;
      }
      if wroteHeader { return; }
      status := code;
      wroteHeader := true;
      snapshot := header;
      wire := wire.(status := Some(code), headers := header);
    }

    method Write(p: Bytes)
      requires Valid()
      modifies this
      ensures Valid() && wroteHeader
      ensures Buffer(buf, overCap) == Push(old(Buffer(buf, overCap)), p, limit)
      ensures wire.body == old(wire).body + p
      ensures old(wroteHeader) ==> wire == old(wire).(body := old(wire).body + p)
      ensures !old(wroteHeader) ==> wire.status == Some(200) && wire.headers == old(header)
    {
      if !wroteHeader { WriteHeader(200); }
      PushBuffers(Buffer(buf, overCap), wire.body, p, limit);
      if !overCap {
        var room := limit + 1 - |buf|;
        if |p| >= room {
          buf := buf + p[..room];
          overCap := true;
        } else {
          buf := buf + p;
        }
      }
      wire := wire.(body := wire.body + p);
    }

    /**
     The result has the status and the allowlisted headers the client saw (a handler that wrote nothing is a
     200), and the first limit + 1 bytes of the body.
     */
    method Result(allow: set<string>) returns (r: StoredResult)
      requires Valid()
      ensures r.kind == Http && r.outcome == None && r.error == None
      ensures r.status == if wroteHeader then wire.status else Some(200)
      ensures r.headers == Some(Allowed(if wroteHeader then wire.headers else header, allow))
      ensures r.body == Some(if |wire.body| <= limit then wire.body else wire.body[..limit + 1])
    {
      var code, seen := status, snapshot;
      if !wroteHeader { code, seen := 200, header; }
      var kept := StoredHeaders(seen, allow);
      r := StoredResult(Http, Some(code), Some(kept), Some(buf), None, None);
    }
  }

  const SET_COOKIE := "set-cookie"

  /** The stored headers: allowlisted names, never Set-Cookie. */
  function Allowed(hs: seq<Header>, allow: set<string>): seq<Header> {
    if hs == [] then []
    else var h := hs[|hs| - 1];
         Allowed(hs[..|hs| - 1], allow) + (if h.0 != SET_COOKIE && h.0 in allow then [h] else [])
  }

  /** Each header is kept or not by itself, and what is kept stays in order. */
  lemma {:induction false} AllowedEach(hs: seq<Header>, more: seq<Header>, h: Header, allow: set<string>)
    ensures Allowed(hs + more, allow) == Allowed(hs, allow) + Allowed(more, allow)
    ensures Allowed([h], allow) == if h.0 in allow && h.0 != "set-cookie" then [h] else []
    decreases |more|
  {
    assert [h][..0] == [];
    if more == [] {
      assert hs + more == hs;
    } else {
      var init := more[..|more| - 1];
      AllowedEach(hs, init, h, allow);
      assert (hs + more)[..|hs + more| - 1] == hs + init;
    }
  }

  method StoredHeaders(hs: seq<Header>, allow: set<string>) returns (kept: seq<Header>)
    ensures kept == Allowed(hs, allow)
    ensures forall h :: h in kept <==> h in hs && h.0 != "set-cookie" && h.0 in allow
  {
    kept := [];
    for i := 0 to |hs|
      invariant kept == Allowed(hs[..i], allow)
      invariant forall h :: h in kept <==> h in hs[..i] && h.0 != SET_COOKIE && h.0 in allow
    {
      assert hs[..i + 1][..i] == hs[..i];
      if hs[i].0 != SET_COOKIE && hs[i].0 in allow { kept := kept + [hs[i]]; }
    }
    assert hs[..|hs|] == hs;
  }
}
