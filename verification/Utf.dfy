/**
 Text as UTF-8 bytes and as UTF-16 code units. A `char` is one Unicode scalar value, which is what a decoded
 Go string ranges over. Both encodings are proved to identify the text, and `lessUTF16` (go/anyonce/jcs.go) to
 be a strict total order on it.
 */
module Utf {
  import opened Types

  function Utf8Char(c: char): seq<byte> {
    var v := c as int;
    if v < 0x80 then [v]
    else if v < 0x800 then [0xC0 + v / 64, 0x80 + v % 64]
    else if v < 0x10000 then [0xE0 + v / 64 / 64, 0x80 + v / 64 % 64, 0x80 + v % 64]
    else [0xF0 + v / 64 / 64 / 64, 0x80 + v / 64 / 64 % 64, 0x80 + v / 64 % 64, 0x80 + v % 64]
  }

  function Utf8(s: string): seq<byte> {
    if s == "" then [] else Utf8Char(s[0]) + Utf8(s[1..])
  }

  lemma {:induction false} Utf8Append(a: string, b: string)
    ensures Utf8(a + b) == Utf8(a) + Utf8(b)
    decreases |a|
  {
    if a == "" {
      assert a + b == b;
    } else {
      assert (a + b)[1..] == a[1..] + b;
      Utf8Append(a[1..], b);
    }
  }

  /** The first byte tells the length of an encoding, and the bytes tell the character. */
  lemma Utf8CharUnique(c: char, d: char, s: seq<byte>, t: seq<byte>)
    requires Utf8Char(c) + s == Utf8Char(d) + t
    ensures c == d && s == t
  {
    var x, y := Utf8Char(c) + s, Utf8Char(d) + t;
    assert x[0] == Utf8Char(c)[0] && y[0] == Utf8Char(d)[0];
    assert |Utf8Char(c)| == |Utf8Char(d)|;
    var n := |Utf8Char(c)|;
    assert Utf8Char(c) == x[..n] == Utf8Char(d);
    assert s == x[n..] == t;
    BitsOfChar(c);
    BitsOfChar(d);
  }

  /** The number whose bits the bytes of one encoding carry. */
  function Bits(b: seq<int>): int {
    match |b|
    case 1 => b[0]
    case 2 => (b[0] - 0xC0) * 64 + (b[1] - 0x80)
    case 3 => ((b[0] - 0xE0) * 64 + (b[1] - 0x80)) * 64 + (b[2] - 0x80)
    case 4 => (((b[0] - 0xF0) * 64 + (b[1] - 0x80)) * 64 + (b[2] - 0x80)) * 64 + (b[3] - 0x80)
    case _ => 0
  }

  lemma BitsOfChar(c: char)
    ensures Bits(Utf8Char(c)) == c as int
  {
  }

  /** The encoding of RFC 3629: length and lead byte by range, continuation bytes, and six bits in each. */
  lemma Utf8Form(c: char)
    ensures var v, b := c as int, Utf8Char(c);
            && Bits(b) == v
            && |b| == (if v < 0x80 then 1 else if v < 0x800 then 2 else if v < 0x10000 then 3 else 4)
            && (|b| == 2 ==> 0xC2 <= b[0] < 0xE0) && (|b| == 3 ==> 0xE0 <= b[0] < 0xF0)
            && (|b| == 4 ==> 0xF0 <= b[0] < 0xF5)
            && forall i :: 0 < i < |b| ==> 0x80 <= b[i] < 0xC0
  {
  }

  lemma {:induction false} Utf8Injective(a: string, b: string)
    requires Utf8(a) == Utf8(b)
    ensures a == b
    decreases |a|
  {
    if a != "" && b != "" {
      Utf8CharUnique(a[0], b[0], Utf8(a[1..]), Utf8(b[1..]));
      Utf8Injective(a[1..], b[1..]);
    }
  }

  // ----- UTF-16

  function Utf16Char(c: char): seq<int> {
    var v := c as int;
    if v < 0x10000 then [v] else [0xD800 + (v - 0x10000) / 1024, 0xDC00 + (v - 0x10000) % 1024]
  }

  /** One unit for the basic plane, else a high and a low surrogate with ten bits each. */
  lemma Utf16Form(c: char)
    ensures var v, u := c as int, Utf16Char(c);
            if v < 0x10000 then u == [v]
            else && |u| == 2 && 0xD800 <= u[0] < 0xDC00 && 0xDC00 <= u[1] < 0xE000
                 && v == 0x10000 + (u[0] - 0xD800) * 1024 + (u[1] - 0xDC00)
  {
  }

  function Utf16(s: string): seq<int> {
    if s == "" then [] else Utf16Char(s[0]) + Utf16(s[1..])
  }

  lemma Utf16CharUnique(c: char, d: char, s: seq<int>, t: seq<int>)
    requires Utf16Char(c) + s == Utf16Char(d) + t
    ensures c == d && s == t
  {
    var x, y := Utf16Char(c) + s, Utf16Char(d) + t;
    assert x[0] == Utf16Char(c)[0] && y[0] == Utf16Char(d)[0];
    var n := |Utf16Char(c)|;
    assert n == |Utf16Char(d)|;
    if n == 2 { assert x[1] == Utf16Char(c)[1] && y[1] == Utf16Char(d)[1]; }
    assert s == x[n..] == t;
  }

  lemma {:induction false} Utf16Injective(a: string, b: string)
    requires Utf16(a) == Utf16(b)
    ensures a == b
    decreases |a|
  {
    if a != "" && b != "" {
      Utf16CharUnique(a[0], b[0], Utf16(a[1..]), Utf16(b[1..]));
      Utf16Injective(a[1..], b[1..]);
    }
  }

  /** Lexicographic order of code units. */
  predicate LessUnits(a: seq<int>, b: seq<int>)
    decreases |a|
  {
    if a == [] then b != []
    else if b == [] then false
    else if a[0] != b[0] then a[0] < b[0]
    else LessUnits(a[1..], b[1..])
  }

  predicate Less(a: string, b: string) { LessUnits(Utf16(a), Utf16(b)) }

  lemma {:induction false} UnitsTotal(a: seq<int>, b: seq<int>)
    ensures !LessUnits(a, a)
    ensures !(LessUnits(a, b) && LessUnits(b, a))
    ensures a != b ==> LessUnits(a, b) || LessUnits(b, a)
    decreases |a|
  {
    if a != [] {
      UnitsTotal(a[1..], if b == [] then [] else b[1..]);
      if b != [] && a != b && a[0] == b[0] {
        assert a == [a[0]] + a[1..] && b == [b[0]] + b[1..];
      }
    }
  }

  lemma {:induction false} UnitsTransitive(a: seq<int>, b: seq<int>, c: seq<int>)
    requires LessUnits(a, b) && LessUnits(b, c)
    ensures LessUnits(a, c)
    decreases |a|
  {
    if a != [] && a[0] == b[0] == c[0] { UnitsTransitive(a[1..], b[1..], c[1..]); }
  }

  /** The order is ascending: a proper prefix comes first, else the smaller unit at the first difference. */
  lemma {:induction false} UnitsAscend(a: seq<int>, b: seq<int>)
    ensures LessUnits(a, b) <==>
            (a != b && a <= b) || exists i :: 0 <= i < |a| && i < |b| && a[..i] == b[..i] && a[i] < b[i]
    decreases |a|
  {
    if a != [] && b != [] && a[0] == b[0] {
      UnitsAscend(a[1..], b[1..]);
      assert a == [a[0]] + a[1..] && b == [b[0]] + b[1..];
      if i :| 0 <= i < |a| && i < |b| && a[..i] == b[..i] && a[i] < b[i] {
        assert a[1..][..i - 1] == a[..i][1..] == b[..i][1..] == b[1..][..i - 1];
        assert a[1..][i - 1] < b[1..][i - 1];
      }
      if i :| 0 <= i < |a[1..]| && i < |b[1..]| && a[1..][..i] == b[1..][..i] && a[1..][i] < b[1..][i] {
        assert a[..i + 1] == [a[0]] + a[1..][..i] && b[..i + 1] == [b[0]] + b[1..][..i];
        assert a[i + 1] < b[i + 1];
      }
    } else if a != [] && b != [] {
      assert a[..0] == b[..0];
    }
  }

  /** A strict total order on texts: distinct texts have distinct code units. */
  lemma LessIsStrictTotal(a: string, b: string, c: string)
    ensures !Less(a, a)
    ensures Less(a, b) && Less(b, c) ==> Less(a, c)
    ensures a != b ==> (Less(a, b) <==> !Less(b, a))
  {
    UnitsTotal(Utf16(a), Utf16(b));
    if Less(a, b) && Less(b, c) { UnitsTransitive(Utf16(a), Utf16(b), Utf16(c)); }
    if Utf16(a) == Utf16(b) { Utf16Injective(a, b); }
  }

  method LessUTF16(a: string, b: string) returns (less: bool)
    ensures less == Less(a, b)
  {
    var ua, ub := Utf16(a), Utf16(b);
    var i := 0;
    while i < |ua| && i < |ub|
      invariant 0 <= i <= |ua| && i <= |ub|
      invariant LessUnits(ua, ub) == LessUnits(ua[i..], ub[i..])
    {
      if ua[i] != ub[i] { return ua[i] < ub[i]; }
      assert ua[i..][1..] == ua[i + 1..] && ub[i..][1..] == ub[i + 1..];
      i := i + 1;
    }
    return |ua| < |ub|;
  }
}
