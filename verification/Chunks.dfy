/** Bodies as sequences of chunks, and the copy that stops growing once it is over a cap. */
module Chunks {
  import opened Types

  type Bytes = seq<byte>

  function Flatten(cs: seq<Bytes>): Bytes {
    if cs == [] then [] else Flatten(cs[..|cs| - 1]) + cs[|cs| - 1]
  }

  function Total(cs: seq<Bytes>): nat { |Flatten(cs)| }

  lemma FlattenPush(cs: seq<Bytes>, c: Bytes)
    ensures Flatten(cs + [c]) == Flatten(cs) + c
  {
    assert (cs + [c])[..|cs|] == cs;
  }

  lemma {:induction false} FlattenAppend(a: seq<Bytes>, b: seq<Bytes>)
    ensures Flatten(a + b) == Flatten(a) + Flatten(b)
    decreases |b|
  {
    if b == [] {
      assert a + b == a;
    } else {
      var init := b[..|b| - 1];
      FlattenAppend(a, init);
      assert a + b == (a + init) + [b[|b| - 1]];
      FlattenPush(a + init, b[|b| - 1]);
    }
  }

  lemma FlattenNext(cs: seq<Bytes>, i: nat)
    requires i < |cs|
    ensures Flatten(cs[..i + 1]) == Flatten(cs[..i]) + cs[i]
    ensures Total(cs[..i + 1]) <= Total(cs)
  {
    assert cs[..i + 1] == cs[..i] + [cs[i]];
    FlattenPush(cs[..i], cs[i]);
    assert cs == cs[..i + 1] + cs[i + 1..];
    FlattenAppend(cs[..i + 1], cs[i + 1..]);
  }

  /** What buffering chunk by chunk keeps: chunks are added until the copy is larger than the cap. */
  function CapPrefix(cs: seq<Bytes>, cap: int): seq<Bytes> {
    if cs == [] then []
    else var p := CapPrefix(cs[..|cs| - 1], cap);
         if Total(p) > cap then p else p + [cs[|cs| - 1]]
  }

  /** All of it when it fits, otherwise the shortest chunk prefix that does not. */
  lemma {:induction false} CapPrefixExact(cs: seq<Bytes>, cap: nat)
    ensures var p := CapPrefix(cs, cap);
            && p <= cs
            && (Total(cs) <= cap ==> p == cs)
            && (Total(cs) > cap ==> p != [] && Total(p) > cap && Total(p[..|p| - 1]) <= cap)
    decreases |cs|
  {
    if cs != [] {
      var init := cs[..|cs| - 1];
      CapPrefixExact(init, cap);
      assert cs == init + [cs[|cs| - 1]];
      var p := CapPrefix(init, cap);
      if Total(p) <= cap {
        assert p == init;
        assert (p + [cs[|cs| - 1]])[..|p|] == p;
      } else {
        assert Total(init) <= Total(cs);
      }
    }
  }

  /** The stored copy of a body: all of it when it fits the cap, else the shortest chunk prefix that does not. */
  ghost predicate IsCopy(body: Bytes, cs: seq<Bytes>, cap: nat) {
    if Total(cs) <= cap then body == Flatten(cs)
    else exists n: nat :: 0 < n <= |cs| && body == Flatten(cs[..n]) && Total(cs[..n]) > cap && Total(cs[..n - 1]) <= cap
  }

  lemma CapPrefixIsCopy(cs: seq<Bytes>, cap: nat)
    ensures IsCopy(Flatten(CapPrefix(cs, cap)), cs, cap)
  {
    CapPrefixExact(cs, cap);
    var p := CapPrefix(cs, cap);
    var n := |p|;
    assert p == cs[..n];
    if Total(cs) > cap { assert p[..n - 1] == cs[..n - 1]; }
  }

  /** Whether the stored copy is over the cap does not depend on how the body was split. */
  lemma CopyOverCap(body: Bytes, cs: seq<Bytes>, cap: nat)
    requires IsCopy(body, cs, cap)
    ensures |body| > cap <==> Total(cs) > cap
  {
  }
}
