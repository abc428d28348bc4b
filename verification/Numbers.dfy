/**
 The layout of numbers (`es6Number` in go/anyonce/jcs.go; RFC 8785 section 3.2.2.3). A finite non-zero float is
 given by its sign, its shortest decimal digits and n, the position of the decimal point relative to them; the
 conversion that produces those digits is not part of this model.
 */
module Numbers {
  import opened Types

  datatype Float = NonFinite | Zero | Finite(neg: bool, digits: string, n: int)

  predicate IsDigit(c: char) { '0' <= c <= '9' }

  predicate IsDigits(s: string) { forall i :: 0 <= i < |s| ==> IsDigit(s[i]) }

  /** Shortest digits have no leading and no trailing zero. */
  predicate Normal(f: Float) {
    f.Finite? ==> f.digits != [] && IsDigits(f.digits) && f.digits[0] != '0' && f.digits[|f.digits| - 1] != '0'
  }

  function Zeros(m: nat): (s: string)
    ensures |s| == m && IsDigits(s)
  {
    if m == 0 then [] else Zeros(m - 1) + ['0']
  }

  function DigitChar(d: nat): char
    requires d < 10
  {
    '0' + d as char
  }

  /** strconv.Itoa of a natural number. */
  function Itoa(e: nat): (s: string)
    ensures s != [] && IsDigits(s)
  {
    if e < 10 then [DigitChar(e)] else Itoa(e / 10) + [DigitChar(e % 10)]
  }

  function Pointed(a: string, b: string): string { a + ['.'] + b }

  function WithExp(mant: string, e: int): string {
    mant + ['e'] + (if e < 0 then ['-'] + Itoa(-e) else ['+'] + Itoa(e))
  }

  /** The four layouts of the digits d, k of them, for a positive number. */
  function Layout(d: string, n: int): string
    requires d != []
  {
    var k := |d|;
    if k <= n <= 21 then d + Zeros(n - k)
    else if 0 < n <= 21 then Pointed(d[..n], d[n..])
    else if -6 < n <= 0 then Pointed(['0'], Zeros(-n) + d)
    else if k == 1 then WithExp(d, n - 1)
    else WithExp(Pointed(d[..1], d[1..]), n - 1)
  }

  /** None is the error for a number that is not finite. */
  function Es6Number(f: Float): Option<string>
    requires Normal(f)
  {
    match f
    case NonFinite => None
    case Zero => Some(['0'])
    case Finite(neg, d, n) => Some(if neg then ['-'] + Layout(d, n) else Layout(d, n))
  }

  // ----- decimals: v times ten to the e, compared with the smallest v

  datatype Decimal = Decimal(v: nat, e: int)
  {
    function Reduced(): Decimal { Norm(v, e) }
  }

  function Norm(v: nat, e: int): Decimal
    decreases v
  {
    if v == 0 then Decimal(0, 0) else if v % 10 == 0 then Norm(v / 10, e + 1) else Decimal(v, e)
  }

  /** v times ten to the m. */
  function Shift(v: nat, m: nat): nat { if m == 0 then v else 10 * Shift(v, m - 1) }

  lemma {:induction false} NormShift(v: nat, e: int, m: nat)
    ensures Norm(Shift(v, m), e) == Norm(v, e + m)
    decreases m
  {
    if m > 0 {
      NormShift(v, e + 1, m - 1);
      assert Shift(v, m) / 10 == Shift(v, m - 1);
    }
  }

  lemma {:induction false} NormSame(v: nat, w: nat, e: int)
    requires Norm(v, e) == Norm(w, e)
    ensures v == w
    decreases v + w
  {
    NormExponent(v, e);
    NormExponent(w, e);
    if v != 0 && w != 0 && v % 10 == 0 && w % 10 == 0 { NormSame(v / 10, w / 10, e + 1); }
    else if v != 0 && v % 10 == 0 { NormExponent(v / 10, e + 1); }
    else if w != 0 && w % 10 == 0 { NormExponent(w / 10, e + 1); }
  }

  lemma {:induction false} NormExponent(v: nat, e: int)
    ensures v != 0 ==> Norm(v, e).e >= e && Norm(v, e).v != 0
    decreases v
  {
    if v != 0 && v % 10 == 0 { NormExponent(v / 10, e + 1); }
  }

  /** Two decimals are normalised alike exactly when they are the same number. */
  lemma NormExact(v: nat, e: int, m: nat, w: nat)
    ensures Norm(v, e + m) == Norm(w, e) <==> Shift(v, m) == w
  {
    NormShift(v, e, m);
    if Norm(v, e + m) == Norm(w, e) { NormSame(Shift(v, m), w, e); }
  }

  // ----- what number text denotes

  function DigitValue(c: char): nat
    requires IsDigit(c)
  {
    c as int - '0' as int
  }

  function Value(s: string): nat
    requires IsDigits(s)
  {
    if s == [] then 0 else 10 * Value(s[..|s| - 1]) + DigitValue(s[|s| - 1])
  }

  function Natural(s: string): nat { if IsDigits(s) then Value(s) else 0 }

  function Before(s: string, c: char): string { s[..IndexOf(s, c)] }

  function After(s: string, c: char): string {
    if IndexOf(s, c) < |s| then s[IndexOf(s, c) + 1..] else []
  }

  function SignedInt(s: string): int {
    if s == [] then 0
    else if s[0] == '-' then 0 - Natural(s[1..])
    else if s[0] == '+' then Natural(s[1..])
    else Natural(s)
  }

  /** Integer digits, then fraction digits after a point; each fraction digit lowers the exponent by one. */
  function Mantissa(s: string, exp: int): Decimal {
    Decimal(Natural(Before(s, '.') + After(s, '.')), exp - |After(s, '.')|)
  }

  function Unsigned(s: string): Decimal { Mantissa(Before(s, 'e'), SignedInt(After(s, 'e'))) }

  datatype Signed = Signed(neg: bool, magnitude: Decimal)

  /** The value of a JSON number by its grammar; there is one zero. */
  function Denotes(s: string): Signed {
    if s != [] && s[0] == '-' && Unsigned(s[1..]).v != 0 then Signed(true, Unsigned(s[1..]).Reduced())
    else if s != [] && s[0] == '-' then Signed(false, Decimal(0, 0))
    else Signed(false, Unsigned(s).Reduced())
  }

  /** The digits times ten to the (n - k). */
  function Magnitude(d: string, n: int): Decimal
    requires IsDigits(d)
  {
    Decimal(Value(d), n - |d|)
  }

  function FloatValue(f: Float): Signed
    requires Normal(f) && !f.NonFinite?
  {
    match f
    case Zero => Signed(false, Decimal(0, 0))
    case Finite(neg, d, n) => Signed(neg, Magnitude(d, n).Reduced())
  }

  // ----- lemmas about digits and splitting

  lemma ValuePush(s: string, c: char)
    requires IsDigits(s) && IsDigit(c)
    ensures IsDigits(s + [c]) && Value(s + [c]) == 10 * Value(s) + DigitValue(c)
  {
    assert (s + [c])[..|s|] == s;
  }

  lemma {:induction false} ItoaValue(e: nat)
    ensures Value(Itoa(e)) == e
    decreases e
  {
    if e >= 10 {
      ItoaValue(e / 10);
      ValuePush(Itoa(e / 10), DigitChar(e % 10));
    } else {
      ValuePush([], DigitChar(e));
      assert [] + [DigitChar(e)] == Itoa(e);
    }
  }

  lemma {:induction false} TrailingZeros(d: string, m: nat)
    requires IsDigits(d)
    ensures IsDigits(d + Zeros(m)) && Value(d + Zeros(m)) == Shift(Value(d), m)
    decreases m
  {
    if m == 0 {
      assert d + [] == d;
    } else {
      var s := d + Zeros(m - 1);
      TrailingZeros(d, m - 1);
      assert d + Zeros(m) == s + ['0'];
      ValuePush(s, '0');
    }
  }

  lemma {:induction false} LeadingZeros(m: nat, d: string)
    requires IsDigits(d)
    ensures IsDigits(Zeros(m) + d) && Value(Zeros(m) + d) == Value(d)
    decreases |d|, m
  {
    if d != [] {
      var init := d[..|d| - 1];
      LeadingZeros(m, init);
      assert Zeros(m) + d == (Zeros(m) + init) + [d[|d| - 1]];
      ValuePush(Zeros(m) + init, d[|d| - 1]);
    } else if m > 0 {
      LeadingZeros(m - 1, []);
      assert Zeros(m) + [] == (Zeros(m - 1) + []) + ['0'];
      ValuePush(Zeros(m - 1) + [], '0');
    }
  }

  lemma SplitAt(a: string, c: char, b: string)
    requires c !in a
    ensures Before(a + [c] + b, c) == a && After(a + [c] + b, c) == b
  {
    var s := a + [c] + b;
    assert s[|a|] == c;
    assert forall j :: 0 <= j < |a| ==> s[j] == a[j];
    assert IndexOf(s, c) == |a|;
    assert s[..|a|] == a && s[|a| + 1..] == b;
  }

  lemma NoSplit(a: string, c: char)
    requires c !in a
    ensures Before(a, c) == a && After(a, c) == []
  {
    assert IndexOf(a, c) == |a|;
  }

  // ----- the layouts are exact

  lemma PlainMantissa(d: string, exp: int)
    requires IsDigits(d)
    ensures Mantissa(d, exp) == Decimal(Value(d), exp)
  {
    NoSplit(d, '.');
    assert d + [] == d;
  }

  lemma PointMantissa(a: string, b: string, exp: int)
    requires IsDigits(a) && IsDigits(b) && IsDigits(a + b)
    ensures Mantissa(Pointed(a, b), exp) == Decimal(Value(a + b), exp - |b|)
  {
    SplitAt(a, '.', b);
  }

  lemma NoExponent(s: string)
    requires 'e' !in s
    ensures Unsigned(s) == Mantissa(s, 0)
  {
    NoSplit(s, 'e');
  }

  lemma WithExponent(mant: string, e: int)
    requires 'e' !in mant
    ensures Unsigned(WithExp(mant, e)) == Mantissa(mant, e)
  {
    var m := if e < 0 then -e else e;
    var t := if e < 0 then ['-'] + Itoa(m) else ['+'] + Itoa(m);
    SplitAt(mant, 'e', t);
    ItoaValue(m);
    assert t[1..] == Itoa(m);
    assert SignedInt(t) == e;
  }

  lemma WholeLayout(d: string, n: int)
    requires IsDigits(d) && |d| <= n
    ensures Unsigned(d + Zeros(n - |d|)).Reduced() == Magnitude(d, n).Reduced()
  {
    TrailingZeros(d, n - |d|);
    NormShift(Value(d), 0, n - |d|);
    NoExponent(d + Zeros(n - |d|));
    PlainMantissa(d + Zeros(n - |d|), 0);
  }

  lemma PointedHasNoE(a: string, b: string)
    requires IsDigits(a) && IsDigits(b)
    ensures 'e' !in Pointed(a, b)
  {
    var s := Pointed(a, b);
    forall i | 0 <= i < |s| ensures s[i] != 'e' {
      if i < |a| { assert s[i] == a[i]; } else if i > |a| { assert s[i] == b[i - |a| - 1]; }
    }
  }

  lemma PointLayout(a: string, b: string)
    requires IsDigits(a) && IsDigits(b) && IsDigits(a + b)
    ensures Unsigned(Pointed(a, b)) == Decimal(Value(a + b), 0 - |b|)
  {
    assert Unsigned(Pointed(a, b)) == Mantissa(Pointed(a, b), 0) by {
      PointedHasNoE(a, b);
      NoExponent(Pointed(a, b));
    }
    PointMantissa(a, b, 0);
  }

  lemma SmallLayout(d: string, m: nat)
    requires IsDigits(d)
    ensures Unsigned(Pointed(['0'], Zeros(m) + d)) == Magnitude(d, 0 - m)
  {
    var f := Zeros(m) + d;
    LeadingZeros(m, d);
    LeadingZeros(1, f);
    assert Zeros(1) == ['0'] by { assert [] + ['0'] == ['0']; }
    PointLayout(['0'], f);
  }

  lemma ExpLayout(a: string, b: string, e: int)
    requires IsDigits(a) && IsDigits(b) && IsDigits(a + b)
    ensures Unsigned(WithExp(Pointed(a, b), e)) == Decimal(Value(a + b), e - |b|)
  {
    PointedHasNoE(a, b);
    WithExponent(Pointed(a, b), e);
    PointMantissa(a, b, e);
  }

  lemma DigitLayout(d: string, e: int)
    requires IsDigits(d)
    ensures Unsigned(WithExp(d, e)) == Decimal(Value(d), e)
  {
    WithExponent(d, e);
    PlainMantissa(d, e);
  }

  lemma Cut(d: string, i: nat) returns (a: string, b: string)
    requires i <= |d|
    ensures a == d[..i] && b == d[i..] && a + b == d && |b| == |d| - i
  {
    a, b := d[..i], d[i..];
  }

  lemma PointCase(d: string, n: nat)
    requires IsDigits(d) && n <= |d|
    ensures Unsigned(Pointed(d[..n], d[n..])) == Magnitude(d, n)
  {
    var a, b := Cut(d, n);
    PointLayout(a, b);
  }

  lemma ExpCase(d: string, n: int)
    requires d != [] && IsDigits(d)
    ensures Unsigned(WithExp(Pointed(d[..1], d[1..]), n - 1)) == Magnitude(d, n)
  {
    var a, b := Cut(d, 1);
    ExpLayout(a, b, n - 1);
  }

  /** Only the first layout appends zeros; the others keep the digits as they are. */
  lemma KeptLayout(d: string, n: int)
    requires d != [] && IsDigits(d) && !(|d| <= n <= 21)
    ensures Unsigned(Layout(d, n)) == Magnitude(d, n)
  {
    if 0 < n <= 21 {
      PointCase(d, n);
    } else if -6 < n <= 0 {
      SmallLayout(d, -n);
    } else if |d| == 1 {
      DigitLayout(d, n - 1);
    } else {
      ExpCase(d, n);
    }
  }

  lemma LayoutExact(d: string, n: int)
    requires d != [] && IsDigits(d)
    ensures Unsigned(Layout(d, n)).Reduced() == Magnitude(d, n).Reduced()
  {
    if |d| <= n <= 21 { WholeLayout(d, n); } else { KeptLayout(d, n); }
  }

  lemma LayoutStarts(d: string, n: int)
    requires d != [] && IsDigits(d)
    ensures Layout(d, n) != [] && IsDigit(Layout(d, n)[0])
  {
  }

  lemma ZeroText()
    ensures Denotes(['0']) == Signed(false, Decimal(0, 0))
  {
    NoExponent(['0']);
    PlainMantissa(['0'], 0);
    ValuePush([], '0');
    assert [] + ['0'] == ['0'];
  }

  lemma NegativeText(s: string)
    requires s != [] && IsDigit(s[0]) && Unsigned(s).v != 0
    ensures Denotes(['-'] + s) == Signed(true, Unsigned(s).Reduced())
    ensures Denotes(s) == Signed(false, Unsigned(s).Reduced())
  {
    assert (['-'] + s)[1..] == s;
  }

  /** The text of every finite float denotes exactly its value. */
  lemma Es6Exact(f: Float)
    requires Normal(f) && !f.NonFinite?
    ensures Denotes(Es6Number(f).value) == FloatValue(f)
  {
    match f
    case Zero => ZeroText();
    case Finite(neg, d, n) =>
      LayoutExact(d, n);
      LayoutStarts(d, n);
      ValueUnits(d);
      NegativeText(Layout(d, n));
  }

  // ----- distinct floats have distinct text

  /** Normal digits are already the smallest coefficient of their value. */
  lemma ValueUnits(d: string)
    requires IsDigits(d) && d != [] && d[|d| - 1] != '0'
    ensures Value(d) % 10 != 0 && Value(d) > 0
  {
  }

  lemma {:induction false} ValueUnique(a: string, b: string)
    requires IsDigits(a) && IsDigits(b)
    requires a != [] ==> a[0] != '0'
    requires b != [] ==> b[0] != '0'
    requires Value(a) == Value(b)
    ensures a == b
    decreases |a| + |b|
  {
    if a == [] || b == [] {
      if a != [] { ValueAtLeastOne(a); }
      if b != [] { ValueAtLeastOne(b); }
    } else {
      var x, y := a[..|a| - 1], b[..|b| - 1];
      assert a == x + [a[|a| - 1]] && b == y + [b[|b| - 1]];
      assert Value(a) == 10 * Value(x) + DigitValue(a[|a| - 1]) && Value(b) == 10 * Value(y) + DigitValue(b[|b| - 1]);
      ValueUnique(x, y);
    }
  }

  lemma {:induction false} ValueAtLeastOne(a: string)
    requires IsDigits(a) && a != [] && a[0] != '0'
    ensures Value(a) >= 1
    decreases |a|
  {
    if |a| > 1 { ValueAtLeastOne(a[..|a| - 1]); }
  }

  lemma FloatValueUnique(f: Float, g: Float)
    requires Normal(f) && Normal(g) && !f.NonFinite? && !g.NonFinite? && FloatValue(f) == FloatValue(g)
    ensures f == g
  {
    if f.Finite? { ValueUnits(f.digits); }
    if g.Finite? { ValueUnits(g.digits); }
    if f.Finite? && g.Finite? { ValueUnique(f.digits, g.digits); }
  }

  lemma Es6Injective(f: Float, g: Float)
    requires Normal(f) && Normal(g) && Es6Number(f) == Es6Number(g)
    ensures f == g
  {
    if !f.NonFinite? {
      Es6Exact(f);
      Es6Exact(g);
      FloatValueUnique(f, g);
    }
  }

  // ----- the layouts are those of ECMAScript's Number::toString

  /** Digits of a whole number: no leading zero but a lone one. */
  predicate IsWhole(s: string) { s != [] && IsDigits(s) && (s[0] == '0' ==> |s| == 1) }

  /** Whole digits, a point, and fraction digits of which the last is not zero. */
  predicate IsPointed(s: string, i: int) {
    0 < i < |s| - 1 && s[i] == '.' && IsWhole(s[..i]) && IsDigits(s[i + 1..]) && s[|s| - 1] != '0'
  }

  /** A digit that is not zero, alone or before a fraction. */
  predicate IsScaled(s: string) { s != [] && s[0] != '0' && ((|s| == 1 && IsDigit(s[0])) || IsPointed(s, 1)) }

  /** A sign that is always there, and a whole number that is not zero. */
  predicate IsExponent(s: string) {
    s != [] && (s[0] == '+' || s[0] == '-') && IsWhole(s[1..]) && s[1] != '0'
  }

  predicate IsScientific(s: string, i: int) {
    0 < i < |s| && s[i] == 'e' && IsScaled(s[..i]) && IsExponent(s[i + 1..])
  }

  /**
   The text of a number whose first digit is n places before the point: written out from a millionth up to 21
   places, and with an exponent outside; no needless zero on either side.
   */
  ghost predicate Shaped(s: string, n: int) {
    if -6 < n <= 21 then (IsWhole(s) && s[0] != '0') || exists i :: IsPointed(s, i)
    else exists i :: IsScientific(s, i)
  }

  lemma WithoutE(s: string, n: int)
    requires Shaped(s, n) && -6 < n <= 21
    ensures 'e' !in s
  {
    if exists i :: IsPointed(s, i) {
      var i :| IsPointed(s, i);
      forall j | 0 <= j < |s| ensures s[j] != 'e' {
        if j < i { assert s[j] == s[..i][j]; } else if j > i { assert s[j] == s[i + 1..][j - i - 1]; }
      }
    }
  }

  lemma ItoaWhole(e: nat)
    ensures IsWhole(Itoa(e)) && (Itoa(e)[0] == '0' <==> e == 0)
    decreases e
  {
    if e >= 10 { ItoaWhole(e / 10); }
  }

  lemma PointedShape(a: string, b: string)
    requires IsWhole(a) && b != [] && IsDigits(b) && b[|b| - 1] != '0'
    ensures IsPointed(Pointed(a, b), |a|)
  {
    var s := Pointed(a, b);
    assert s[..|a|] == a && s[|a| + 1..] == b;
  }

  lemma ScientificShape(m: string, e: int)
    requires IsScaled(m) && e != 0
    ensures IsScientific(WithExp(m, e), |m|)
  {
    var s := WithExp(m, e);
    var x := Itoa(if e < 0 then -e else e);
    ItoaWhole(if e < 0 then -e else e);
    assert s[..|m|] == m && s[|m| + 1..] == [if e < 0 then '-' else '+'] + x;
    assert s[|m| + 1..][1..] == x;
  }

  lemma ZerosWhole(d: string, m: nat)
    requires d != [] && IsDigits(d) && d[0] != '0'
    ensures IsWhole(d + Zeros(m))
  {
  }

  lemma PlainShape(d: string, n: int)
    requires d != [] && IsDigits(d) && d[0] != '0' && d[|d| - 1] != '0' && -6 < n <= 21
    ensures Shaped(Layout(d, n), n) && ('.' in Layout(d, n) <==> n < |d|)
  {
    var s, k := Layout(d, n), |d|;
    if k <= n {
      ZerosWhole(d, n - k);
    } else if 0 < n {
      PointedShape(d[..n], d[n..]);
      assert s[n] == '.';
    } else {
      PointedShape(['0'], Zeros(-n) + d);
      assert s[1] == '.';
    }
  }

  lemma ExponentShape(d: string, n: int)
    requires d != [] && IsDigits(d) && d[0] != '0' && d[|d| - 1] != '0' && !(-6 < n <= 21)
    ensures var s := Layout(d, n);
            Shaped(s, n) && 'e' in s && ('.' in s <==> |d| > 1)
  {
    var s := Layout(d, n);
    if |d| == 1 {
      ScientificShape(d, n - 1);
      assert s[1] == 'e';
      NoPoint(d, n - 1);
    } else {
      PointedShape(d[..1], d[1..]);
      ScientificShape(Pointed(d[..1], d[1..]), n - 1);
      assert s[1] == '.' && s[|d| + 1] == 'e';
    }
  }

  /** The layouts have that shape, with an exponent and with a point exactly where they need one. */
  lemma LayoutShape(d: string, n: int)
    requires d != [] && IsDigits(d) && d[0] != '0' && d[|d| - 1] != '0'
    ensures var s := Layout(d, n);
            && Shaped(s, n)
            && ('e' in s <==> !(-6 < n <= 21))
            && ('.' in s <==> if -6 < n <= 21 then n < |d| else |d| > 1)
  {
    if -6 < n <= 21 {
      PlainShape(d, n);
      WithoutE(Layout(d, n), n);
    } else {
      ExponentShape(d, n);
    }
  }

  lemma NoPoint(d: string, e: int)
    requires IsDigits(d)
    ensures '.' !in WithExp(d, e)
  {
  }

  // ----- and no other text of the shape denotes the number

  lemma ReducedIs(v: nat, e: int)
    requires v % 10 != 0
    ensures Norm(v, e) == Decimal(v, e)
  {
  }

  lemma LastDigit(s: string)
    requires s != [] && IsDigits(s) && s[|s| - 1] != '0'
    ensures Value(s) % 10 != 0
  {
  }

  /** What a pointed text denotes, with its last digit already the smallest coefficient. */
  lemma PointedDenotes(s: string, i: int, exp: int)
    requires IsPointed(s, i)
    ensures var a, b := s[..i], s[i + 1..];
            && s == Pointed(a, b) && IsDigits(a + b)
            && Mantissa(s, exp) == Decimal(Value(a + b), exp - |b|) && Value(a + b) % 10 != 0
  {
    var a, b := s[..i], s[i + 1..];
    assert s == Pointed(a, b);
    PointMantissa(a, b, exp);
    LastDigit(a + b);
  }

  /** Fractions as long as each other: they are the same, and so are the whole parts as numbers. */
  lemma {:induction false} SameTail(a: string, b: string, c: string, d: string)
    requires IsDigits(a + b) && IsDigits(c + d) && |b| == |d| && Value(a + b) == Value(c + d)
    ensures IsDigits(a) && IsDigits(c) && b == d && Value(a) == Value(c)
    decreases |b|
  {
    if b == [] {
      assert a + b == a && c + d == c;
    } else {
      var x, y := b[..|b| - 1], d[..|d| - 1];
      LastOff(a, b);
      LastOff(c, d);
      SameTail(a, x, c, y);
      assert b == x + [b[|b| - 1]] && d == y + [d[|d| - 1]];
    }
  }

  lemma LastOff(a: string, b: string)
    requires IsDigits(a + b) && b != []
    ensures var x := b[..|b| - 1];
            IsDigit(b[|b| - 1]) && IsDigits(a + x) && Value(a + b) == 10 * Value(a + x) + DigitValue(b[|b| - 1])
  {
    var x := b[..|b| - 1];
    assert (a + b)[|a + b| - 1] == b[|b| - 1];
    assert (a + b)[..|a + b| - 1] == a + x;
  }

  lemma SameWhole(a: string, b: string)
    requires IsWhole(a) && IsWhole(b) && Value(a) == Value(b)
    ensures a == b
  {
    if a[0] != '0' { ValueAtLeastOne(a); }
    if b[0] != '0' { ValueAtLeastOne(b); }
    if a[0] != '0' && b[0] != '0' { ValueUnique(a, b); }
  }

  lemma SamePointed(s: string, i: int, t: string, j: int)
    requires IsPointed(s, i) && IsPointed(t, j) && Mantissa(s, 0).Reduced() == Mantissa(t, 0).Reduced()
    ensures s == t
  {
    var a, b, c, d := s[..i], s[i + 1..], t[..j], t[j + 1..];
    PointedDenotes(s, i, 0);
    PointedDenotes(t, j, 0);
    ReducedIs(Value(a + b), 0 - |b|);
    ReducedIs(Value(c + d), 0 - |d|);
    SameTail(a, b, c, d);
    SameWhole(a, c);
  }

  lemma NotWhole(s: string, t: string, j: int)
    requires IsWhole(s) && s[0] != '0' && IsPointed(t, j)
    ensures Mantissa(s, 0).Reduced() != Mantissa(t, 0).Reduced()
  {
    PlainMantissa(s, 0);
    ValueAtLeastOne(s);
    NormExponent(Value(s), 0);
    PointedDenotes(t, j, 0);
    ReducedIs(Value(t[..j] + t[j + 1..]), 0 - |t[j + 1..]|);
  }

  /** All digits of a scaled text; they and their number determine it. */
  function DigitsOf(m: string): string { if |m| <= 1 then m else m[..1] + m[2..] }

  lemma ScaledDenotes(m: string, e: int)
    requires IsScaled(m)
    ensures var d := DigitsOf(m);
            && d != [] && d[0] != '0' && IsDigits(d) && Value(d) % 10 != 0
            && Mantissa(m, e) == Decimal(Value(d), e - (|d| - 1))
            && m == (if |d| == 1 then d else Pointed(d[..1], d[1..]))
            && 'e' !in m
  {
    if |m| == 1 {
      PlainMantissa(m, e);
      LastDigit(m);
    } else {
      PointedDenotes(m, 1, e);
      PointedHasNoE(m[..1], m[2..]);
      assert DigitsOf(m)[1..] == m[2..] && DigitsOf(m)[..1] == m[..1];
    }
  }

  lemma SameExponent(x: string, y: string)
    requires IsExponent(x) && IsExponent(y) && SignedInt(x) == SignedInt(y)
    ensures x == y
  {
    ValueAtLeastOne(x[1..]);
    ValueAtLeastOne(y[1..]);
    SameWhole(x[1..], y[1..]);
    assert x == [x[0]] + x[1..] && y == [y[0]] + y[1..];
  }

  lemma ScientificParts(s: string, i: int) returns (m: string, x: string)
    requires IsScientific(s, i)
    ensures s == m + ['e'] + x && IsScaled(m) && IsExponent(x) && Unsigned(s) == Mantissa(m, SignedInt(x))
  {
    m, x := s[..i], s[i + 1..];
    ScaledDenotes(m, 0);
    SplitAt(m, 'e', x);
    assert s == m + ['e'] + x;
  }

  lemma SameScaled(m: string, e: int, w: string, f: int)
    requires IsScaled(m) && IsScaled(w) && Mantissa(m, e).Reduced() == Mantissa(w, f).Reduced()
    ensures m == w && e == f
  {
    var c, d := DigitsOf(m), DigitsOf(w);
    ScaledDenotes(m, e);
    ScaledDenotes(w, f);
    ReducedIs(Value(c), e - (|c| - 1));
    ReducedIs(Value(d), f - (|d| - 1));
    ValueUnique(c, d);
  }

  lemma SameScientific(s: string, i: int, t: string, j: int)
    requires IsScientific(s, i) && IsScientific(t, j) && Unsigned(s).Reduced() == Unsigned(t).Reduced()
    ensures s == t
  {
    var m, x := ScientificParts(s, i);
    var w, y := ScientificParts(t, j);
    SameScaled(m, SignedInt(x), w, SignedInt(y));
    SameExponent(x, y);
  }

  /** Two texts of the shape that denote the same number are the same. */
  lemma TextFixed(s: string, t: string, n: int)
    requires Shaped(s, n) && Shaped(t, n) && Unsigned(s).Reduced() == Unsigned(t).Reduced()
    ensures s == t
  {
    if -6 < n <= 21 {
      WithoutE(s, n);
      WithoutE(t, n);
      NoExponent(s);
      NoExponent(t);
      SamePlain(s, t);
    } else {
      var i :| IsScientific(s, i);
      var j :| IsScientific(t, j);
      SameScientific(s, i, t, j);
    }
  }

  lemma SamePlain(s: string, t: string)
    requires (IsWhole(s) && s[0] != '0') || exists i :: IsPointed(s, i)
    requires (IsWhole(t) && t[0] != '0') || exists i :: IsPointed(t, i)
    requires Mantissa(s, 0).Reduced() == Mantissa(t, 0).Reduced()
    ensures s == t
  {
    if exists i :: IsPointed(s, i) {
      var i :| IsPointed(s, i);
      if exists j :: IsPointed(t, j) {
        var j :| IsPointed(t, j);
        SamePointed(s, i, t, j);
      } else {
        NotWhole(t, s, i);
      }
    } else if exists j :: IsPointed(t, j) {
      var j :| IsPointed(t, j);
      NotWhole(s, t, j);
    } else {
      PlainMantissa(s, 0);
      PlainMantissa(t, 0);
      NormSame(Value(s), Value(t), 0);
      ValueUnique(s, t);
    }
  }

  /** The layout is the one text of the shape that denotes the number. */
  lemma LayoutFixed(d: string, n: int, t: string)
    requires d != [] && IsDigits(d) && d[0] != '0' && d[|d| - 1] != '0' && Shaped(t, n)
    ensures Unsigned(t).Reduced() == Magnitude(d, n).Reduced() <==> t == Layout(d, n)
  {
    LayoutExact(d, n);
    LayoutShape(d, n);
    if Unsigned(t).Reduced() == Magnitude(d, n).Reduced() { TextFixed(t, Layout(d, n), n); }
  }

  /** Signs and special values: a minus for a negative number only, one text for zero, none for what is not finite. */
  lemma Es6Signs(f: Float)
    requires Normal(f)
    ensures f.NonFinite? <==> Es6Number(f) == None
    ensures f.Zero? ==> Es6Number(f) == Some("0")
    ensures f.Finite? ==> Es6Number(f) == Some(if f.neg then "-" + Layout(f.digits, f.n) else Layout(f.digits, f.n))
  {
  }

  /** Number text is made of number characters only, so it ends where the next delimiter starts. */
  predicate NumberChar(c: char) { IsDigit(c) || c == '.' || c == 'e' || c == '+' || c == '-' }

  predicate NumberChars(s: string) { forall i :: 0 <= i < |s| ==> NumberChar(s[i]) }

  lemma LayoutChars(d: string, n: int)
    requires d != [] && IsDigits(d)
    ensures NumberChars(Layout(d, n))
  {
    assert NumberChars(Itoa(if n < 1 then 1 - n else n - 1));
  }

  lemma Es6Chars(f: Float)
    requires Normal(f) && !f.NonFinite?
    ensures var s := Es6Number(f).value; s != [] && (IsDigit(s[0]) || s[0] == '-') && NumberChars(s)
  {
    if f.Finite? {
      LayoutStarts(f.digits, f.n);
      LayoutChars(f.digits, f.n);
    }
  }
}
