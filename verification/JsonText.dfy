/** JSON strings as RFC 8785 section 3.2.2.2 writes them (`writeJSONString` in go/anyonce/jcs.go). */
module JsonText {
  import opened Types
  import opened Utf

  function HexDigit(n: nat): char
    requires n < 16
  {
    "0123456789abcdef"[n]
  }

  /** The characters with an escape of their own, and its letter. */
  predicate Short(c: char) {
    c == '"' || c == '\\' || c == '\U{08}' || c == '\U{0C}' || c == '\n' || c == '\r' || c == '\t'
  }

  function Letter(c: char): char {
    match c
    case '\U{08}' => 'b'
    case '\U{0C}' => 'f'
    case '\n' => 'n'
    case '\r' => 'r'
    case '\t' => 't'
    case _ => c
  }

  function EscChar(c: char): string {
    if Short(c) then ['\\', Letter(c)]
    else if c < ' ' then ['\\', 'u', '0', '0', HexDigit(c as int / 16), HexDigit(c as int % 16)]
    else [c]
  }

  function Esc(s: string): string {
    if s == "" then "" else EscChar(s[0]) + Esc(s[1..])
  }

  function Quote(s: string): string { "\"" + Esc(s) + "\"" }

  lemma HexInjective(m: nat, n: nat)
    requires m < 16 && n < 16 && HexDigit(m) == HexDigit(n)
    ensures m == n
  {
  }

  lemma EscCharUnique(c: char, d: char, s: string, t: string)
    requires EscChar(c) + s == EscChar(d) + t
    ensures c == d && s == t
  {
    var e, f := EscChar(c), EscChar(d);
    var x, y := e + s, f + t;
    assert x[0] == e[0] && y[0] == f[0];
    if |e| > 1 && |f| > 1 { assert x[1] == e[1] && y[1] == f[1]; }
    assert |e| == |f|;
    if |e| == 6 {
      assert x[4] == e[4] && y[4] == f[4] && x[5] == e[5] && y[5] == f[5];
      HexInjective(c as int / 16, d as int / 16);
      HexInjective(c as int % 16, d as int % 16);
    } else if |e| == 2 {
      assert Letter(c) == Letter(d);
    }
    assert s == x[|e|..] == t;
  }

  function Closed(a: string, s: string): string { Esc(a) + "\"" + s }

  lemma ClosedCons(a: string, s: string)
    requires a != ""
    ensures Closed(a, s) == EscChar(a[0]) + Closed(a[1..], s)
    ensures Closed(a, s)[0] != '"'
  {
    Regroup(EscChar(a[0]), Esc(a[1..]), "\"", s);
  }

  lemma Regroup(a: string, b: string, c: string, s: string)
    ensures a + b + c + s == a + (b + (c + s)) == a + (b + c + s)
  {
    assert b + (c + s) == b + c + s;
  }

  /** A quoted string ends where it says it does: what follows cannot be confused with it. */
  lemma {:induction false} EscUnique(a: string, b: string, s: string, t: string)
    requires Closed(a, s) == Closed(b, t)
    ensures a == b && s == t
    decreases |a|
  {
    assert Closed("", s)[0] == Closed("", t)[0] == '"';
    if a != "" { ClosedCons(a, s); }
    if b != "" { ClosedCons(b, t); }
    if a == "" {
      assert s == Closed(a, s)[1..] && t == Closed(b, t)[1..];
    } else {
      EscCharUnique(a[0], b[0], Closed(a[1..], s), Closed(b[1..], t));
      EscUnique(a[1..], b[1..], s, t);
    }
  }

  lemma QuoteUnique(a: string, b: string, s: string, t: string)
    requires Quote(a) + s == Quote(b) + t
    ensures a == b && s == t
  {
    assert (Quote(a) + s)[1..] == Closed(a, s);
    assert (Quote(b) + t)[1..] == Closed(b, t);
    EscUnique(a, b, s, t);
  }

  // ----- reading strings back by the grammar of RFC 8259 section 7

  function HexValue(c: char): Option<nat> {
    if '0' <= c <= '9' then Some(c as int - '0' as int)
    else if 'a' <= c <= 'f' then Some(c as int - 'a' as int + 10)
    else if 'A' <= c <= 'F' then Some(c as int - 'A' as int + 10)
    else None
  }

  /** The letter after a backslash. */
  function Named(c: char): Option<char> {
    match c
    case '"' => Some('"')
    case '\\' => Some('\\')
    case '/' => Some('/')
    case 'b' => Some(8 as char)
    case 'f' => Some(12 as char)
    case 'n' => Some(10 as char)
    case 'r' => Some(13 as char)
    case 't' => Some(9 as char)
    case _ => None
  }

  /** One character of a string and what follows it; surrogate pairs, which no writer here needs, are not read. */
  function ReadChar(s: string): Option<(char, string)> {
    if s == "" || s[0] == '"' || s[0] < ' ' then None
    else if s[0] != '\\' then Some((s[0], s[1..]))
    else if |s| < 2 then None
    else if s[1] != 'u' then (if Named(s[1]).Some? then Some((Named(s[1]).value, s[2..])) else None)
    else if |s| < 6 || exists i :: 2 <= i < 6 && HexValue(s[i]).None? then None
    else
      var v := ((HexValue(s[2]).value * 16 + HexValue(s[3]).value) * 16 + HexValue(s[4]).value) * 16
               + HexValue(s[5]).value;
      if v < 0xD800 then Some((v as char, s[6..])) else None
  }

  /** The text of a string up to its closing quote, and what follows. */
  function ReadString(s: string): Option<(string, string)>
    decreases |s|
  {
    if s != "" && s[0] == '"' then Some(("", s[1..]))
    else match ReadChar(s)
         case None => None
         case Some((c, rest)) =>
           match ReadString(rest)
           case None => None
           case Some((text, after)) => Some(([c] + text, after))
  }

  lemma HexReads(n: nat)
    requires n < 16
    ensures HexValue(HexDigit(n)) == Some(n) && !('A' <= HexDigit(n) <= 'F')
  {
  }

  lemma CharReads(c: char, t: string)
    ensures ReadChar(EscChar(c) + t) == Some((c, t)) && (EscChar(c) + t)[0] != '"'
  {
    var s := EscChar(c) + t;
    if !Short(c) && c < ' ' {
      HexReads(c as int / 16);
      HexReads(c as int % 16);
      assert s[0] == '\\' && s[1] == 'u' && s[2] == '0' && s[3] == '0';
      assert s[4] == HexDigit(c as int / 16) && s[5] == HexDigit(c as int % 16);
      assert forall i :: 2 <= i < 6 ==> HexValue(s[i]).Some?;
      assert s[6..] == t;
    } else if Short(c) {
      assert s[0] == '\\' && s[1] == Letter(c) && s[2..] == t;
    } else {
      assert s[1..] == t;
    }
  }

  lemma ReadCons(s: string, c: char, rest: string, text: string, after: string)
    requires s != "" && s[0] != '"' && ReadChar(s) == Some((c, rest)) && ReadString(rest) == Some((text, after))
    ensures ReadString(s) == Some(([c] + text, after))
  {
  }

  lemma {:induction false} ClosedReads(s: string, t: string)
    ensures ReadString(Closed(s, t)) == Some((s, t))
    decreases |s|
  {
    if s == "" {
      assert Closed(s, t)[0] == '"' && Closed(s, t)[1..] == t;
    } else {
      ClosedCons(s, t);
      CharReads(s[0], Closed(s[1..], t));
      ClosedReads(s[1..], t);
      ReadCons(Closed(s, t), s[0], Closed(s[1..], t), s[1..], t);
      assert s == [s[0]] + s[1..];
    }
  }

  /** A quoted string reads back as its text, and its end is where the rest begins. */
  lemma QuoteReads(s: string, t: string)
    ensures Quote(s) != "" && Quote(s)[0] == '"' && ReadString(Quote(s)[1..] + t) == Some((s, t))
  {
    assert Quote(s)[1..] + t == Closed(s, t);
    ClosedReads(s, t);
  }

  /**
   What is escaped and how: nothing but the quote, the backslash and the controls below U+0020; those with a short
   form by two characters, the others by \u00 and two digits, in lower case.
   */
  lemma EscapeForm(c: char)
    ensures var v, e := c as int, EscChar(c);
            if v in {8, 9, 10, 12, 13, 34, 92} then |e| == 2
            else if v < 32 then |e| == 6 && forall i :: 2 <= i < 6 ==> !('A' <= e[i] <= 'F')
            else e == [c]
  {
    if !Short(c) && c < ' ' {
      HexReads(c as int / 16);
      HexReads(c as int % 16);
    }
  }

  /** The output buffer. */
  class ByteBuffer {
    var bytes: seq<byte>

    constructor ()
      ensures bytes == []
    { bytes := []; }

    method WriteString(s: string)
      modifies this
      ensures bytes == old(bytes) + Utf8(s)
    {
      bytes := bytes + Utf8(s);
    }

    method WriteEscaped(r: char)
      modifies this
      ensures bytes == old(bytes) + Utf8(EscChar(r))
    {
      match r {
        case '"' => WriteString(['\\', '"']);
        case '\\' => WriteString(['\\', '\\']);
        case '\U{08}' => WriteString(['\\', 'b']);
        case '\U{0C}' => WriteString(['\\', 'f']);
        case '\n' => WriteString(['\\', 'n']);
        case '\r' => WriteString(['\\', 'r']);
        case '\t' => WriteString(['\\', 't']);
        case _ =>
          if r < ' ' {
            WriteString(['\\', 'u', '0', '0', HexDigit(r as int / 16), HexDigit(r as int % 16)]);
          } else {
            WriteString([r]);
          }
      }
    }

    method WriteJSONString(s: string)
      modifies this
      ensures bytes == old(bytes) + Utf8(Quote(s))
    {
      ghost var start := bytes;
      WriteString("\"");
      ghost var open := bytes;
      var i := 0;
      while i < |s|
        invariant 0 <= i <= |s|
        invariant bytes == open + Utf8(Esc(s[..i]))
      {
        EscPush(open, s, i);
        WriteEscaped(s[i]);
        i := i + 1;
      }
      assert s[..i] == s;
      WriteString("\"");
      QuoteBytes(start, s);
    }

    lemma QuoteBytes(start: seq<byte>, s: string)
      ensures start + Utf8("\"") + Utf8(Esc(s)) + Utf8("\"") == start + Utf8(Quote(s))
    {
      Utf8Append("\"" + Esc(s), "\"");
      Utf8Append("\"", Esc(s));
    }

    lemma EscPush(open: seq<byte>, s: string, i: nat)
      requires i < |s|
      ensures open + Utf8(Esc(s[..i])) + Utf8(EscChar(s[i])) == open + Utf8(Esc(s[..i + 1]))
    {
      assert s[..i + 1] == s[..i] + [s[i]];
      EscAppend(s[..i], s[i]);
      Utf8Append(Esc(s[..i]), EscChar(s[i]));
    }

    lemma {:induction false} EscAppend(s: string, c: char)
      ensures Esc(s + [c]) == Esc(s) + EscChar(c)
      decreases |s|
    {
      if s == "" {
        assert s + [c] == [c];
      } else {
        assert (s + [c])[1..] == s[1..] + [c];
        EscAppend(s[1..], c);
      }
    }
  }
}
