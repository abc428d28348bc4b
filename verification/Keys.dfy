/**
 Key syntax (packages/core/src/sfstring.ts and key.ts): an sf-string parser proved to be the exact inverse of
 RFC 9651 serialization (sections 4.1.6 and 4.2.5), and the keys a header may carry.
 */
module Keys {
  import opened Types

  // ----- serialization

  predicate Printable(s: string) { forall i :: 0 <= i < |s| ==> ' ' <= s[i] <= '~' }

  predicate Quoted(c: char) { c == '"' || c == '\\' }

  function EscapeChar(c: char): string { if Quoted(c) then ['\\', c] else [c] }

  function Escape(s: string): string {
    if s == [] then [] else EscapeChar(s[0]) + Escape(s[1..])
  }

  function Serialize(s: string): string { ['"'] + Escape(s) + ['"'] }

  /** Serialization goes character by character, with a backslash before a quote and a backslash only. */
  lemma {:induction false} EscapeEach(a: string, b: string, c: char)
    ensures Escape(a + b) == Escape(a) + Escape(b)
    ensures Escape([c]) == if c as int == 34 || c as int == 92 then [92 as char, c] else [c]
    decreases |a|
  {
    assert [c][1..] == [];
    if a == [] {
      assert a + b == b;
    } else {
      assert (a + b)[1..] == a[1..] + b;
      EscapeEach(a[1..], b, c);
    }
  }

  lemma PrintableRange(s: string)
    ensures Printable(s) <==> forall c :: c in s ==> 32 <= c as int <= 126
  {
    if forall c :: c in s ==> 32 <= c as int <= 126 {
      forall i | 0 <= i < |s| ensures ' ' <= s[i] <= '~' { assert s[i] in s; }
    }
  }

  // ----- trimming

  function TrimLeft(s: string, ws: set<char>): string {
    if s != [] && s[0] in ws then TrimLeft(s[1..], ws) else s
  }

  function TrimRight(s: string, ws: set<char>): string {
    if s != [] && s[|s| - 1] in ws then TrimRight(s[..|s| - 1], ws) else s
  }

  function Trim(s: string, ws: set<char>): string { TrimRight(TrimLeft(s, ws), ws) }

  /** Nothing left to trim. */
  predicate Tight(s: string, ws: set<char>) { s == [] || (s[0] !in ws && s[|s| - 1] !in ws) }

  lemma {:induction false} TrimLeftSkips(a: string, s: string, ws: set<char>)
    requires forall i :: 0 <= i < |a| ==> a[i] in ws
    ensures TrimLeft(a + s, ws) == TrimLeft(s, ws)
    decreases |a|
  {
    if a == [] {
      assert a + s == s;
    } else {
      assert (a + s)[1..] == a[1..] + s;
      TrimLeftSkips(a[1..], s, ws);
    }
  }

  lemma {:induction false} TrimRightSkips(s: string, b: string, ws: set<char>)
    requires forall i :: 0 <= i < |b| ==> b[i] in ws
    ensures TrimRight(s + b, ws) == TrimRight(s, ws)
    decreases |b|
  {
    if b == [] {
      assert s + b == s;
    } else {
      assert (s + b)[..|s + b| - 1] == s + b[..|b| - 1];
      TrimRightSkips(s, b[..|b| - 1], ws);
    }
  }

  /** Trimming removes surrounding white space and nothing else. */
  lemma TrimIs(a: string, s: string, b: string, ws: set<char>)
    requires forall i :: 0 <= i < |a| ==> a[i] in ws
    requires forall i :: 0 <= i < |b| ==> b[i] in ws
    requires Tight(s, ws)
    ensures Trim(a + s + b, ws) == s
  {
    if s == [] {
      TrimLeftSkips(a + b, [], ws);
      assert a + s + b == a + b + [];
    } else {
      assert a + s + b == a + (s + b);
      TrimLeftSkips(a, s + b, ws);
      TrimRightSkips(s, b, ws);
    }
  }

  /** The two scanning loops of trimSpaces and trimOws. */
  method DoTrim(value: string, ws: set<char>) returns (r: string)
    ensures r == Trim(value, ws) && Tight(r, ws)
  {
    var start, end := 0, |value|;
    while start < end && value[start] in ws
      invariant 0 <= start <= end == |value|
      invariant forall i :: 0 <= i < start ==> value[i] in ws
    {
      start := start + 1;
    }
    while end > start && value[end - 1] in ws
      invariant start <= end <= |value|
      invariant forall i :: end <= i < |value| ==> value[i] in ws
      invariant end < |value| && start < |value| ==> value[start] !in ws
      invariant end == |value| ==> start == |value| || value[start] !in ws
    {
      end := end - 1;
    }
    r := value[start..end];
    assert value == value[..start] + r + value[end..];
    TrimIs(value[..start], r, value[end..], ws);
  }

  // ----- parsing sf-strings

  datatype Reason =
    | MissingQuote | UnterminatedEscape | InvalidEscape(at: nat) | TrailingCharacters | NotPrintable | UnterminatedQuote

  datatype Parse = Parsed(value: string) | Rejected(reason: Reason)

  lemma EscapeCharUnique(c: char, d: char, s: string, t: string)
    requires EscapeChar(c) + s == EscapeChar(d) + t
    ensures c == d && s == t
  {
    var x, y := EscapeChar(c) + s, EscapeChar(d) + t;
    assert x[0] == EscapeChar(c)[0] && y[0] == EscapeChar(d)[0];
    if Quoted(c) && Quoted(d) { assert x[1] == c && y[1] == d; }
    assert s == x[|EscapeChar(c)|..] == t;
  }

  lemma EscapeCons(v: string, rest: string)
    requires v != []
    ensures Escape(v) + rest == EscapeChar(v[0]) + (Escape(v[1..]) + rest)
    ensures (Escape(v) + rest)[0] != '"'
  {
    assert EscapeChar(v[0])[0] != '"';
  }

  lemma SplitFirst(out: string, v: string)
    requires out != [] && v != [] && out[0] == v[0] && |out| <= |v| && v[1..] == out[1..] + v[1..][|out| - 1..]
    ensures v == out + v[|out|..] && v[1..][|out| - 1..] == v[|out|..]
  {
    assert v == [v[0]] + v[1..] && out == [out[0]] + out[1..];
  }

  /** What has been read is a prefix of any string the input could be the serialization of. */
  lemma {:induction false} ReadIsPrefix(out: string, rest: string, v: string)
    requires Escape(out) + rest == Escape(v) + ['"']
    ensures |out| <= |v| && v == out + v[|out|..] && rest == Escape(v[|out|..]) + ['"']
    decreases |out|
  {
    if out == [] {
      assert v[0..] == v && [] + rest == rest;
    } else {
      EscapeCons(out, rest);
      assert (Escape([]) + ['"'])[0] == '"';
      assert v != [];
      EscapeCons(v, ['"']);
      EscapeCharUnique(out[0], v[0], Escape(out[1..]) + rest, Escape(v[1..]) + ['"']);
      ReadIsPrefix(out[1..], rest, v[1..]);
      SplitFirst(out, v);
    }
  }

  /** Why the rest of the input, from index `at`, cannot be the rest of a serialization. */
  function Fault(rest: string, at: nat): Option<Reason> {
    if rest == [] then Some(UnterminatedQuote)
    else if rest[0] == '\\' then
      if |rest| == 1 then Some(UnterminatedEscape)
      else if !Quoted(rest[1]) then Some(InvalidEscape(at + 1))
      else None
    else if rest[0] == '"' then (if |rest| > 1 then Some(TrailingCharacters) else None)
    else if rest[0] < ' ' || rest[0] > '~' then Some(NotPrintable)
    else None
  }

  /** The first `i` characters are an opening quote and the serialized form of `out`. */
  predicate ReadTo(s: string, i: nat, out: string) {
    i <= |s| && s[..i] == ['"'] + Escape(out) && Printable(out)
  }

  /** The input goes wrong, for this reason, at index `i`, after the value so far was read. */
  predicate FailsAt(s: string, i: nat, out: string, reason: Reason) {
    ReadTo(s, i, out) && Fault(s[i..], i) == Some(reason)
  }

  ghost predicate Fails(s: string, reason: Reason) { exists i, out :: FailsAt(s, i, out, reason) }

  lemma RestContinues(w: string, at: nat)
    requires Printable(w)
    ensures Fault(Escape(w) + ['"'], at).None?
  {
    if w != [] {
      var r := Escape(w) + ['"'];
      assert r[0] == EscapeChar(w[0])[0];
      if Quoted(w[0]) { assert r[1] == EscapeChar(w[0])[1]; }
    }
  }

  lemma SplitRest(s: string, i: nat, read: string, all: string)
    requires i <= |s| && s[..i] == ['"'] + read && s == ['"'] + all
    ensures read + s[i..] == all
  {
    assert s[1..] == all;
    assert s[1..i] == s[..i][1..] == read;
    assert s[1..] == s[1..i] + s[i..];
  }

  /** A serialization is never at fault. */
  lemma GoesOn(s: string, i: nat, out: string, v: string)
    requires ReadTo(s, i, out) && s == Serialize(v) && Printable(v)
    ensures Fault(s[i..], i).None?
  {
    var rest := s[i..];
    SplitRest(s, i, Escape(out), Escape(v) + ['"']);
    ReadIsPrefix(out, rest, v);
    RestContinues(v[|out|..], i);
  }

  /** Input that cannot go on is the serialization of nothing. */
  lemma Hopeless(s: string, i: nat, out: string, reason: Reason)
    requires FailsAt(s, i, out, reason)
    ensures Fails(s, reason)
    ensures forall v :: Printable(v) ==> s != Serialize(v)
  {
    forall v | Printable(v) ensures s != Serialize(v) {
      if s == Serialize(v) { GoesOn(s, i, out, v); }
    }
  }

  lemma {:induction false} EscapePush(s: string, c: char)
    ensures Escape(s + [c]) == Escape(s) + EscapeChar(c)
    decreases |s|
  {
    if s == [] {
      assert s + [c] == [c];
    } else {
      assert (s + [c])[1..] == s[1..] + [c];
      EscapePush(s[1..], c);
    }
  }

  /** One more character of the value has been read. */
  lemma ReadOne(s: string, i: nat, out: string, c: char, j: nat)
    requires ReadTo(s, i, out) && i <= j <= |s| && s[i..j] == EscapeChar(c) && ' ' <= c <= '~'
    ensures ReadTo(s, j, out + [c])
  {
    EscapePush(out, c);
    assert s[..j] == s[..i] + s[i..j];
  }

  /** Succeeds exactly on the serializations of printable strings, and returns the string. */
  method ParseSfString(input: string) returns (r: Parse)
    ensures r.Parsed? ==> Printable(r.value) && Trim(input, {' '}) == Serialize(r.value)
    ensures r.Rejected? ==> forall v :: Printable(v) ==> Trim(input, {' '}) != Serialize(v)
    ensures r.Rejected? ==> var s := Trim(input, {' '});
      if s == [] || s[0] != '"' then r.reason == MissingQuote else Fails(s, r.reason)
  {
    var s := DoTrim(input, {' '});
    if |s| == 0 || s[0] != '"' { return Rejected(MissingQuote); }
    r := ParseQuoted(s);
  }

  /** The scanning loop of parseSfString, past the opening quote. */
  method ParseQuoted(s: string) returns (r: Parse)
    requires |s| > 0 && s[0] == '"'
    ensures r.Parsed? ==> Printable(r.value) && s == Serialize(r.value)
    ensures r.Rejected? ==> forall v :: Printable(v) ==> s != Serialize(v)
    ensures r.Rejected? ==> Fails(s, r.reason)
  {
    var out: string := [];
    var i := 1;
    while i < |s|
      invariant 1 <= i <= |s|
      invariant ReadTo(s, i, out)
    {
      var code := s[i];
      if code == '\\' {
        if i + 1 >= |s| {
          Hopeless(s, i, out, UnterminatedEscape);
          return Rejected(UnterminatedEscape);
        }
        var next := s[i + 1];
        if next != '"' && next != '\\' {
          Hopeless(s, i, out, InvalidEscape(i + 1));
          return Rejected(InvalidEscape(i + 1));
        }
        ReadOne(s, i, out, next, i + 2);
        out := out + [next];
        i := i + 2;
        continue;
      }
      if code == '"' {
        if i + 1 < |s| {
          Hopeless(s, i, out, TrailingCharacters);
          return Rejected(TrailingCharacters);
        }
        assert s == s[..i] + ['"'];
        return Parsed(out);
      }
      if code < ' ' || code > '~' {
        Hopeless(s, i, out, NotPrintable);
        return Rejected(NotPrintable);
      }
      ReadOne(s, i, out, code, i + 1);
      out := out + [code];
      i := i + 1;
    }
    Hopeless(s, i, out, UnterminatedQuote);
    return Rejected(UnterminatedQuote);
  }

  lemma SerializeInjective(v: string, w: string)
    requires Serialize(v) == Serialize(w)
    ensures v == w
  {
    assert Serialize(v)[1..] == Escape(v) + ['"'] && Serialize(w)[1..] == Escape(w) + ['"'];
    ReadIsPrefix(v, ['"'], w);
    ReadIsPrefix(w, ['"'], v);
  }

  // ----- keys

  const MAX_KEY_BYTES := 255

  datatype Syntax = Lenient | Strict

  predicate KeyChar(c: char, allowSpace: bool) { '!' <= c <= '~' || (c == ' ' && allowSpace) }

  /** 1 to 255 bytes of printable ASCII, spaces only where allowed. */
  predicate ValidKey(key: string, allowSpace: bool) {
    1 <= |key| <= MAX_KEY_BYTES && forall i :: 0 <= i < |key| ==> KeyChar(key[i], allowSpace)
  }

  method ValidateKey(key: string, allowSpace: bool) returns (ok: bool)
    ensures ok <==> ValidKey(key, allowSpace)
    ensures ok <==> 1 <= |key| <= 255
                    && forall i :: 0 <= i < |key| ==> '!' <= key[i] <= '~' || (allowSpace && key[i] == ' ')
  {
    if |key| == 0 { return false; }
    for i := 0 to |key|
      invariant forall j :: 0 <= j < i ==> KeyChar(key[j], allowSpace)
    {
      if key[i] == ' ' && allowSpace { continue; }
      if key[i] < '!' || key[i] > '~' { return false; }
    }
    if |key| > MAX_KEY_BYTES { return false; }
    return true;
  }

  const OWS := {' ', '\t'}

  /** The header value `h` carries the key `k`: as an sf-string, or bare where the syntax allows it. */
  predicate Carries(h: string, syntax: Syntax, k: string) {
    var t := Trim(h, {' ', '\t'});
    if syntax == Strict || (t != [] && t[0] == '"') then ValidKey(k, true) && t == Serialize(k)
    else ValidKey(k, false) && t == k
  }

  /** Accepts a header exactly when it carries a key, and then returns that key. */
  method ParseKey(h: string, syntax: Syntax) returns (key: Option<string>)
    ensures key.Some? ==> Carries(h, syntax, key.value)
    ensures key.None? ==> forall k :: !Carries(h, syntax, k)
  {
    var trimmed := DoTrim(h, OWS);
    var quoted := |trimmed| > 0 && trimmed[0] == '"';
    if syntax == Strict || quoted {
      assert [] + trimmed + [] == trimmed;
      TrimIs([], trimmed, [], {' '});
      var parsed := ParseSfString(trimmed);
      if parsed.Rejected? {
        forall k ensures !Carries(h, syntax, k) { assert ValidKey(k, true) ==> Printable(k); }
        return None;
      }
      var valid := ValidateKey(parsed.value, true);
      if !valid {
        forall k ensures !Carries(h, syntax, k) {
          if trimmed == Serialize(k) { SerializeInjective(k, parsed.value); }
        }
        return None;
      }
      return Some(parsed.value);
    }
    var valid := ValidateKey(trimmed, false);
    return if valid then Some(trimmed) else None;
  }

  /** Strict takes the serialization of a key and nothing else; lenient also a bare key that starts with no quote. */
  lemma Syntaxes(h: string, k: string)
    ensures Carries(h, Strict, k) <==> ValidKey(k, true) && Trim(h, {' ', '\t'}) == Serialize(k)
    ensures Carries(h, Lenient, k) <==>
            Carries(h, Strict, k) || (ValidKey(k, false) && k[0] != '"' && Trim(h, {' ', '\t'}) == k)
  {
  }

  /** A header carries at most one key. */
  lemma CarriesOne(h: string, syntax: Syntax, k: string, l: string)
    requires Carries(h, syntax, k) && Carries(h, syntax, l)
    ensures k == l
  {
    if Serialize(k) == Serialize(l) { SerializeInjective(k, l); }
  }

  /** Round trip: a valid key's serialization, with any white space around it, carries that key under both syntaxes. */
  lemma SerializationCarries(a: string, k: string, b: string, syntax: Syntax)
    requires ValidKey(k, true)
    requires forall i :: 0 <= i < |a| ==> a[i] in OWS
    requires forall i :: 0 <= i < |b| ==> b[i] in OWS
    ensures Carries(a + Serialize(k) + b, syntax, k)
  {
    TrimIs(a, Serialize(k), b, OWS);
  }
}
