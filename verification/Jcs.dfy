/**
 Canonical JSON (`writeCanonical` in go/anyonce/jcs.go; RFC 8785 section 3.2). The tree is what the decoder
 produces: objects are maps, which the language iterates in any order.
 */
module Jcs {
  import opened Types
  import opened Utf
  import opened JsonText
  import opened Numbers

  datatype Json =
    | Null
    | Bool(b: bool)
    | Num(f: Float)
    | Str(s: string)
    | Arr(items: seq<Json>)
    | Obj(members: map<string, Json>)

  /** Every number is in shortest form. */
  ghost predicate WellFormed(v: Json) {
    match v
    case Num(f) => Normal(f)
    case Arr(xs) => forall i :: 0 <= i < |xs| ==> WellFormed(xs[i])
    case Obj(m) => forall k :: k in m ==> WellFormed(m[k])
    case _ => true
  }

  /** No number is infinite or NaN; the others have no canonical form. */
  ghost predicate AllFinite(v: Json) {
    match v
    case Num(f) => !f.NonFinite?
    case Arr(xs) => forall i :: 0 <= i < |xs| ==> AllFinite(xs[i])
    case Obj(m) => forall k :: k in m ==> AllFinite(m[k])
    case _ => true
  }

  // ----- the order of members

  predicate Sorted(ks: seq<string>) { forall i, j :: 0 <= i < j < |ks| ==> Less(ks[i], ks[j]) }

  function KeySet(ks: seq<string>): set<string> { set k | k in ks }

  /** The keys of a set in order, each once. */
  ghost predicate Orders(ks: seq<string>, s: set<string>) {
    Sorted(ks) && forall k :: k in ks <==> k in s
  }

  /** There is only one such sequence, because the order is strict and total. */
  lemma {:induction false} OrdersUnique(a: seq<string>, b: seq<string>, s: set<string>)
    requires Orders(a, s) && Orders(b, s)
    ensures a == b
    decreases |a|
  {
    assert b != [] ==> b[0] in b;
    if a == [] {
    } else {
      assert a[0] in s && b != [];
      FirstIsLeast(a, s, b[0]);
      FirstIsLeast(b, s, a[0]);
      LessIsStrictTotal(a[0], b[0], a[0]);
      var x := a[0];
      assert Orders(a[1..], s - {x}) by { TailOrders(a, s); }
      assert Orders(b[1..], s - {x}) by { TailOrders(b, s); }
      OrdersUnique(a[1..], b[1..], s - {x});
      assert a == [x] + a[1..] && b == [x] + b[1..];
    }
  }

  lemma FirstIsLeast(a: seq<string>, s: set<string>, k: string)
    requires Orders(a, s) && a != [] && k in s
    ensures k == a[0] || Less(a[0], k)
  {
    assert k in a;
    var i :| 0 <= i < |a| && a[i] == k;
  }

  lemma TailOrders(a: seq<string>, s: set<string>)
    requires Orders(a, s) && a != []
    ensures Orders(a[1..], s - {a[0]})
  {
    assert a == [a[0]] + a[1..];
    forall k ensures k in a[1..] <==> k in s - {a[0]} {
      LessIsStrictTotal(a[0], a[0], a[0]);
      if k in a[1..] {
        var i :| 0 <= i < |a[1..]| && a[1..][i] == k;
        assert Less(a[0], a[i + 1]);
      }
    }
  }

  /** Inserting a key that is not there yet. */
  function Insert(k: string, ks: seq<string>): seq<string> {
    if ks == [] then [k] else if Less(k, ks[0]) then [k] + ks else [ks[0]] + Insert(k, ks[1..])
  }

  lemma {:induction false} InsertOrders(k: string, ks: seq<string>, s: set<string>)
    requires Orders(ks, s) && k !in s
    ensures Orders(Insert(k, ks), s + {k})
    decreases |ks|
  {
    var r := Insert(k, ks);
    if ks != [] {
      assert ks[0] in s;
      LessIsStrictTotal(k, ks[0], k);
      if Less(k, ks[0]) {
        forall j | 0 <= j < |ks| ensures Less(k, ks[j]) { LessIsStrictTotal(k, ks[0], ks[j]); }
      } else {
        TailOrders(ks, s);
        InsertOrders(k, ks[1..], s - {ks[0]});
        var t := Insert(k, ks[1..]);
        forall j | 0 <= j < |t| ensures Less(ks[0], t[j]) {
          assert t[j] in s - {ks[0]} + {k};
          if t[j] != k { FirstIsLeast(ks, s, t[j]); }
        }
        assert forall x :: x in r <==> x == ks[0] || x in t;
      }
    }
  }

  /** Keys sorted by their UTF-16 code units. */
  method SortKeys(keys: seq<string>) returns (sorted: seq<string>)
    requires forall i, j :: 0 <= i < j < |keys| ==> keys[i] != keys[j]
    ensures Orders(sorted, KeySet(keys))
  {
    sorted := [];
    for i := 0 to |keys|
      invariant Orders(sorted, KeySet(keys[..i]))
    {
      ghost var s := KeySet(keys[..i]);
      InsertOrders(keys[i], sorted, s);
      assert KeySet(keys[..i + 1]) == s + {keys[i]} by { assert keys[..i + 1] == keys[..i] + [keys[i]]; }
      sorted := Insert(keys[i], sorted);
    }
    assert keys[..|keys|] == keys;
  }

  lemma {:induction false} OrderExists(s: set<string>) returns (ks: seq<string>)
    ensures Orders(ks, s)
    decreases |s|
  {
    if s == {} {
      ks := [];
    } else {
      var k :| k in s;
      var rest := OrderExists(s - {k});
      InsertOrders(k, rest, s - {k});
      assert s - {k} + {k} == s;
      ks := Insert(k, rest);
    }
  }

  lemma SomeOrder(s: set<string>)
    ensures exists ks :: Orders(ks, s)
  {
    var ks := OrderExists(s);
  }

  ghost function InOrder(s: set<string>): (ks: seq<string>)
    ensures Orders(ks, s)
  {
    SomeOrder(s);
    var ks :| Orders(ks, s);
    ks
  }

  // ----- the canonical text

  ghost function Text(v: Json): string
    requires WellFormed(v) && AllFinite(v)
    decreases v, 1, 0
  {
    match v
    case Null => ['n', 'u', 'l', 'l']
    case Bool(b) => if b then ['t', 'r', 'u', 'e'] else ['f', 'a', 'l', 's', 'e']
    case Num(f) => Es6Number(f).value
    case Str(s) => Quote(s)
    case Arr(xs) => ['['] + Items(v, 0)
    case Obj(m) => ['{'] + Members(v, InOrder(m.Keys), true)
  }

  /** The items from i on, each after the first preceded by a comma, and the closing bracket. */
  ghost function Items(v: Json, i: nat): string
    requires WellFormed(v) && AllFinite(v) && v.Arr? && i <= |v.items|
    decreases v, 0, |v.items| - i
  {
    if i == |v.items| then [']'] else Comma(i == 0) + Text(v.items[i]) + Items(v, i + 1)
  }

  function Comma(first: bool): string { if first then [] else [','] }

  ghost function Members(v: Json, ks: seq<string>, first: bool): string
    requires WellFormed(v) && AllFinite(v) && v.Obj? && forall k :: k in ks ==> k in v.members
    decreases v, 0, |ks|
  {
    if ks == [] then ['}']
    else Comma(first) + Quote(ks[0]) + [':'] + Text(v.members[ks[0]]) + Members(v, ks[1..], false)
  }

  // ----- canonical texts determine values

  /** What may follow a value: nothing, or a delimiter. */
  predicate Stops(s: string) { s == [] || s[0] == ',' || s[0] == ']' || s[0] == '}' }

  lemma NumberUnique(f: Float, g: Float, s: string, t: string)
    requires Normal(f) && Normal(g) && !f.NonFinite? && !g.NonFinite? && Stops(s) && Stops(t)
    requires Es6Number(f).value + s == Es6Number(g).value + t
    ensures f == g && s == t
  {
    var a, b := Es6Number(f).value, Es6Number(g).value;
    Es6Chars(f);
    Es6Chars(g);
    SpanUnique(a, b, s, t);
    Es6Injective(f, g);
  }

  lemma SpanUnique(a: string, b: string, s: string, t: string)
    requires NumberChars(a) && NumberChars(b) && Stops(s) && Stops(t) && a + s == b + t
    ensures a == b && s == t
  {
    var x, y := a + s, b + t;
    assert forall i :: 0 <= i < |a| ==> x[i] == a[i];
    assert forall i :: 0 <= i < |b| ==> y[i] == b[i];
    assert (s != [] ==> x[|a|] == s[0]) && (t != [] ==> y[|b|] == t[0]);
    assert |a| == |b|;
    assert a == x[..|a|] == b && s == x[|a|..] == t;
  }

  predicate Starts(v: Json, c: char) {
    match v
    case Null => c == 'n'
    case Bool(b) => c == (if b then 't' else 'f')
    case Num(_) => IsDigit(c) || c == '-'
    case Str(_) => c == '"'
    case Arr(_) => c == '['
    case Obj(_) => c == '{'
  }

  lemma TextStarts(v: Json, s: string)
    requires WellFormed(v) && AllFinite(v)
    ensures Text(v) != [] && Starts(v, (Text(v) + s)[0])
  {
    if v.Num? { Es6Chars(v.f); }
  }

  /**
   No canonical text is confused with another, even with more text behind it: this is what makes the
   canonical form usable inside arrays and objects.
   */
  lemma {:induction false} TextUnique(v: Json, w: Json, s: string, t: string)
    requires WellFormed(v) && AllFinite(v) && WellFormed(w) && AllFinite(w) && Stops(s) && Stops(t)
    requires Text(v) + s == Text(w) + t
    ensures v == w && s == t
    decreases v, 1, 0
  {
    TextStarts(v, s);
    TextStarts(w, t);
    match v
    case Null => assert w == Null && s == (Text(v) + s)[4..] == t;
    case Bool(b) => assert w == v && s == (Text(v) + s)[|Text(v)|..] == t;
    case Num(f) => NumberUnique(f, w.f, s, t);
    case Str(x) => QuoteUnique(x, w.s, s, t);
    case Arr(xs) =>
      OpenArr(v, s);
      OpenArr(w, t);
      ItemsUnique(v, w, 0, s, t);
    case Obj(m) =>
      OpenObj(v, s);
      OpenObj(w, t);
      MembersUnique(v, w, InOrder(m.Keys), InOrder(w.members.Keys), true, s, t);
      SameMembers(m, w.members);
  }

  lemma OpenArr(v: Json, s: string)
    requires WellFormed(v) && AllFinite(v) && v.Arr?
    ensures (Text(v) + s)[1..] == Items(v, 0) + s
  {
  }

  lemma OpenObj(v: Json, s: string)
    requires WellFormed(v) && AllFinite(v) && v.Obj?
    ensures (Text(v) + s)[1..] == Members(v, InOrder(v.members.Keys), true) + s
  {
  }

  lemma SameMembers(m: map<string, Json>, n: map<string, Json>)
    requires InOrder(m.Keys) == InOrder(n.Keys)
    requires forall k :: k in InOrder(m.Keys) ==> m[k] == n[k]
    ensures m == n
  {
    assert forall k :: k in m <==> k in InOrder(m.Keys);
    assert forall k :: k in n <==> k in InOrder(n.Keys);
  }

  lemma ItemsCons(v: Json, i: nat, s: string)
    requires WellFormed(v) && AllFinite(v) && v.Arr? && i < |v.items|
    ensures Items(v, i) + s == Comma(i == 0) + (Text(v.items[i]) + (Items(v, i + 1) + s))
  {
    Regroup(Comma(i == 0), Text(v.items[i]), Items(v, i + 1), s);
  }

  lemma ItemsStops(v: Json, i: nat, s: string)
    requires WellFormed(v) && AllFinite(v) && v.Arr? && i <= |v.items|
    ensures Items(v, i) != []
    ensures i > 0 ==> Stops(Items(v, i) + s)
    ensures (Items(v, i) + s)[0] == ']' <==> i == |v.items|
  {
    if i < |v.items| {
      TextStarts(v.items[i], Items(v, i + 1) + s);
      ItemsCons(v, i, s);
    }
  }

  /** The next items of both are the same. */
  lemma ItemUnique(v: Json, w: Json, i: nat, s: string, t: string)
    requires WellFormed(v) && AllFinite(v) && WellFormed(w) && AllFinite(w)
    requires v.Arr? && w.Arr? && i < |v.items| && i < |w.items|
    requires Items(v, i) + s == Items(w, i) + t
    ensures v.items[i] == w.items[i] && Items(v, i + 1) + s == Items(w, i + 1) + t
    decreases v.items[i], 2, 0
  {
    var x, y := Items(v, i + 1) + s, Items(w, i + 1) + t;
    ItemsCons(v, i, s);
    ItemsCons(w, i, t);
    Cancel(Comma(i == 0), Text(v.items[i]) + x, Text(w.items[i]) + y);
    ItemsStops(v, i + 1, s);
    ItemsStops(w, i + 1, t);
    TextUnique(v.items[i], w.items[i], x, y);
  }

  lemma ItemsUnique(v: Json, w: Json, i: nat, s: string, t: string)
    requires WellFormed(v) && AllFinite(v) && WellFormed(w) && AllFinite(w)
    requires v.Arr? && w.Arr? && i <= |v.items| && i <= |w.items|
    requires v.items[..i] == w.items[..i]
    requires Items(v, i) + s == Items(w, i) + t
    ensures v == w && s == t
    decreases v, 0, |v.items| - i
  {
    ItemsStops(v, i, s);
    ItemsStops(w, i, t);
    if i == |v.items| {
      assert v.items == w.items;
      assert s == (Items(v, i) + s)[1..] == t;
    } else {
      ItemUnique(v, w, i, s, t);
      assert v.items[..i + 1] == v.items[..i] + [v.items[i]] && w.items[..i + 1] == w.items[..i] + [w.items[i]];
      ItemsUnique(v, w, i + 1, s, t);
    }
  }

  lemma Cancel(p: string, x: string, y: string)
    requires p + x == p + y
    ensures x == y
  {
    assert x == (p + x)[|p|..] == y;
  }

  ghost predicate MemberKeys(v: Json, ks: seq<string>) {
    v.Obj? && forall k :: k in ks ==> k in v.members
  }

  lemma MembersCons(v: Json, ks: seq<string>, first: bool, s: string)
    requires WellFormed(v) && AllFinite(v) && MemberKeys(v, ks) && ks != []
    ensures Members(v, ks, first) + s
            == Comma(first) + (Quote(ks[0]) + ([':'] + (Text(v.members[ks[0]]) + (Members(v, ks[1..], false) + s))))
  {
    var t, m := Text(v.members[ks[0]]), Members(v, ks[1..], false);
    Regroup(Comma(first) + Quote(ks[0]) + [':'], t, m, s);
    Regroup(Comma(first), Quote(ks[0]), [':'], t + (m + s));
  }

  lemma KeyStarts(first: bool, k: string, r: string)
    ensures var s := Comma(first) + (Quote(k) + r);
            s != [] && s[0] == (if first then '"' else ',')
  {
    assert (Quote(k) + r)[0] == '"';
  }

  lemma MembersStops(v: Json, ks: seq<string>, first: bool, s: string)
    requires WellFormed(v) && AllFinite(v) && MemberKeys(v, ks)
    ensures Members(v, ks, first) != []
    ensures !first ==> Stops(Members(v, ks, first) + s)
    ensures (Members(v, ks, first) + s)[0] == '}' <==> ks == []
  {
    if ks != [] {
      MembersCons(v, ks, first, s);
      KeyStarts(first, ks[0], [':'] + (Text(v.members[ks[0]]) + (Members(v, ks[1..], false) + s)));
    }
  }

  /** The next members of both have the same key and the same value. */
  lemma MemberUnique(v: Json, w: Json, ks: seq<string>, ls: seq<string>, first: bool, s: string, t: string)
    requires WellFormed(v) && AllFinite(v) && WellFormed(w) && AllFinite(w)
    requires MemberKeys(v, ks) && MemberKeys(w, ls) && ks != [] && ls != []
    requires Members(v, ks, first) + s == Members(w, ls, first) + t
    ensures ks[0] == ls[0] && v.members[ks[0]] == w.members[ls[0]]
    ensures Members(v, ks[1..], false) + s == Members(w, ls[1..], false) + t
    decreases v.members[ks[0]], 2, 0
  {
    var x, y := Members(v, ks[1..], false) + s, Members(w, ls[1..], false) + t;
    var a, b := Text(v.members[ks[0]]) + x, Text(w.members[ls[0]]) + y;
    MembersCons(v, ks, first, s);
    MembersCons(w, ls, first, t);
    Cancel(Comma(first), Quote(ks[0]) + ([':'] + a), Quote(ls[0]) + ([':'] + b));
    QuoteUnique(ks[0], ls[0], [':'] + a, [':'] + b);
    Cancel([':'], a, b);
    MembersStops(v, ks[1..], false, s);
    MembersStops(w, ls[1..], false, t);
    TextUnique(v.members[ks[0]], w.members[ls[0]], x, y);
  }

  lemma MembersUnique(v: Json, w: Json, ks: seq<string>, ls: seq<string>, first: bool, s: string, t: string)
    requires WellFormed(v) && AllFinite(v) && WellFormed(w) && AllFinite(w)
    requires MemberKeys(v, ks) && MemberKeys(w, ls)
    requires Members(v, ks, first) + s == Members(w, ls, first) + t
    ensures ks == ls && s == t && forall k :: k in ks ==> v.members[k] == w.members[k]
    decreases v, 0, |ks|
  {
    MembersStops(v, ks, first, s);
    MembersStops(w, ls, first, t);
    if ks == [] {
      assert s == (Members(v, ks, first) + s)[1..] == t;
    } else {
      MemberUnique(v, w, ks, ls, first, s, t);
      MembersUnique(v, w, ks[1..], ls[1..], false, s, t);
      assert ks == [ks[0]] + ks[1..] && ls == [ls[0]] + ls[1..];
    }
  }

  /** Canonical bytes are equal exactly for equal values: objects as maps, numbers by value, strings by text. */
  lemma CanonicalUnique(v: Json, w: Json)
    requires WellFormed(v) && AllFinite(v) && WellFormed(w) && AllFinite(w)
    ensures Utf8(Text(v)) == Utf8(Text(w)) <==> v == w
  {
    if Utf8(Text(v)) == Utf8(Text(w)) {
      Utf8Injective(Text(v), Text(w));
      assert Text(v) + [] == Text(v) && Text(w) + [] == Text(w);
      TextUnique(v, w, [], []);
    }
  }

  // ----- the text read by the grammar of JSON

  /** Parts with commas between them. */
  function Joined(parts: seq<string>): string {
    if parts == [] then "" else parts[0] + Following(parts[1..])
  }

  function Following(parts: seq<string>): string {
    if parts == [] then "" else "," + parts[0] + Following(parts[1..])
  }

  ghost predicate ReadsText(s: string, x: string) { s != "" && s[0] == '"' && ReadString(s[1..]) == Some((x, "")) }

  /** The text s is JSON without white space for the value v, members ascending by key, numbers as laid out. */
  ghost predicate Reads(s: string, v: Json)
    decreases v, 3
  {
    match v
    case Null => s == "null"
    case Bool(b) => s == (if b then "true" else "false")
    case Num(f) => Normal(f) && Es6Number(f) == Some(s)
    case Str(x) => ReadsText(s, x)
    case Arr(_) => exists parts :: ReadsItems(s, parts, v)
    case Obj(_) => exists ks, parts :: ReadsMembers(s, ks, parts, v)
  }

  ghost predicate ReadsItems(s: string, parts: seq<string>, v: Json)
    requires v.Arr?
    decreases v, 2
  {
    && s == "[" + Joined(parts) + "]" && |parts| == |v.items|
    && forall i :: 0 <= i < |parts| ==> Reads(parts[i], v.items[i])
  }

  ghost predicate ReadsMembers(s: string, ks: seq<string>, parts: seq<string>, v: Json)
    requires v.Obj?
    decreases v, 2
  {
    && s == "{" + Joined(parts) + "}" && |parts| == |ks| && Orders(ks, v.members.Keys)
    && forall i :: 0 <= i < |parts| ==> ReadsMember(parts[i], ks[i], v)
  }

  /** A key, a colon and the key's value. */
  ghost predicate ReadsMember(s: string, k: string, v: Json)
    requires v.Obj?
    decreases v, 1
  {
    exists at :: ReadsMemberAt(s, at, k, v)
  }

  ghost predicate ReadsMemberAt(s: string, at: int, k: string, v: Json)
    requires v.Obj?
    decreases v, 0
  {
    0 <= at < |s| && s[at] == ':' && ReadsText(s[..at], k) && k in v.members && Reads(s[at + 1..], v.members[k])
  }

  ghost function ItemTexts(v: Json): (parts: seq<string>)
    requires WellFormed(v) && AllFinite(v) && v.Arr?
    ensures |parts| == |v.items| && forall i :: 0 <= i < |parts| ==> parts[i] == Text(v.items[i])
  {
    seq(|v.items|, i requires 0 <= i < |v.items| => Text(v.items[i]))
  }

  ghost function MemberText(v: Json, k: string): string
    requires WellFormed(v) && AllFinite(v) && v.Obj? && k in v.members
  {
    Quote(k) + ":" + Text(v.members[k])
  }

  ghost function MemberTexts(v: Json, ks: seq<string>): (parts: seq<string>)
    requires WellFormed(v) && AllFinite(v) && MemberKeys(v, ks)
    ensures |parts| == |ks| && forall i :: 0 <= i < |parts| ==> parts[i] == MemberText(v, ks[i])
  {
    seq(|ks|, i requires 0 <= i < |ks| => MemberText(v, ks[i]))
  }

  lemma Assoc(a: string, b: string, c: string)
    ensures a + (b + c) == a + b + c
  {
  }

  lemma {:induction false} ItemsFollow(v: Json, i: nat)
    requires WellFormed(v) && AllFinite(v) && v.Arr? && 0 < i <= |v.items|
    ensures Items(v, i) == Following(ItemTexts(v)[i..]) + "]"
    decreases |v.items| - i
  {
    var parts := ItemTexts(v);
    if i < |v.items| {
      ItemsFollow(v, i + 1);
      assert parts[i..][1..] == parts[i + 1..];
      Assoc("," + parts[i], Following(parts[i + 1..]), "]");
    }
  }

  lemma ItemsJoined(v: Json)
    requires WellFormed(v) && AllFinite(v) && v.Arr?
    ensures Items(v, 0) == Joined(ItemTexts(v)) + "]"
  {
    var parts := ItemTexts(v);
    if parts != [] {
      ItemsFollow(v, 1);
      Assoc(parts[0], Following(parts[1..]), "]");
      assert Comma(true) + parts[0] == parts[0];
    }
  }

  lemma MemberCons(v: Json, ks: seq<string>, first: bool)
    requires WellFormed(v) && AllFinite(v) && MemberKeys(v, ks) && ks != []
    ensures Members(v, ks, first) == Comma(first) + MemberText(v, ks[0]) + Members(v, ks[1..], false)
    ensures MemberTexts(v, ks)[1..] == MemberTexts(v, ks[1..])
  {
    var t := Text(v.members[ks[0]]);
    assert Comma(first) + Quote(ks[0]) + [':'] + t == Comma(first) + (Quote(ks[0]) + ":" + t);
  }

  lemma {:induction false} MembersFollow(v: Json, ks: seq<string>)
    requires WellFormed(v) && AllFinite(v) && MemberKeys(v, ks)
    ensures Members(v, ks, false) == Following(MemberTexts(v, ks)) + "}"
    decreases |ks|
  {
    if ks != [] {
      MemberCons(v, ks, false);
      MembersFollow(v, ks[1..]);
      Assoc("," + MemberText(v, ks[0]), Following(MemberTexts(v, ks[1..])), "}");
    }
  }

  lemma MembersJoined(v: Json, ks: seq<string>)
    requires WellFormed(v) && AllFinite(v) && MemberKeys(v, ks)
    ensures Members(v, ks, true) == Joined(MemberTexts(v, ks)) + "}"
  {
    if ks != [] {
      MemberCons(v, ks, true);
      MembersFollow(v, ks[1..]);
      Assoc(MemberText(v, ks[0]), Following(MemberTexts(v, ks[1..])), "}");
      assert Comma(true) + MemberText(v, ks[0]) == MemberText(v, ks[0]);
    }
  }

  lemma MemberReads(v: Json, k: string)
    requires WellFormed(v) && AllFinite(v) && v.Obj? && k in v.members && Reads(Text(v.members[k]), v.members[k])
    ensures ReadsMember(MemberText(v, k), k, v)
  {
    var s := MemberText(v, k);
    QuoteReads(k, "");
    assert Quote(k)[1..] + "" == Quote(k)[1..];
    assert s[..|Quote(k)|] == Quote(k) && s[|Quote(k)| + 1..] == Text(v.members[k]);
    assert ReadsMemberAt(s, |Quote(k)|, k, v);
  }

  lemma TextReadsItems(v: Json)
    requires WellFormed(v) && AllFinite(v) && v.Arr?
    requires forall i :: 0 <= i < |v.items| ==> Reads(Text(v.items[i]), v.items[i])
    ensures Reads(Text(v), v)
  {
    ItemsJoined(v);
    Assoc("[", Joined(ItemTexts(v)), "]");
    assert ReadsItems(Text(v), ItemTexts(v), v);
  }

  lemma TextReadsMembers(v: Json)
    requires WellFormed(v) && AllFinite(v) && v.Obj?
    requires forall k :: k in v.members ==> Reads(Text(v.members[k]), v.members[k])
    ensures Reads(Text(v), v)
  {
    var ks := InOrder(v.members.Keys);
    var parts := MemberTexts(v, ks);
    forall i | 0 <= i < |ks| ensures ReadsMember(parts[i], ks[i], v) { MemberReads(v, ks[i]); }
    MembersJoined(v, ks);
    Assoc("{", Joined(parts), "}");
    assert ReadsMembers(Text(v), ks, parts, v);
  }

  /** The canonical text is JSON for the value, with every literal, escape and delimiter where the grammar has it. */
  lemma {:induction false} TextReads(v: Json)
    requires WellFormed(v) && AllFinite(v)
    ensures Reads(Text(v), v)
    decreases v
  {
    match v
    case Str(x) =>
      QuoteReads(x, "");
      assert Quote(x)[1..] + "" == Quote(x)[1..];
    case Arr(xs) =>
      forall i | 0 <= i < |xs| { TextReads(xs[i]); }
      TextReadsItems(v);
    case Obj(m) =>
      forall k | k in m { TextReads(m[k]); }
      TextReadsMembers(v);
    case _ =>
  }

  // ----- the writer

  lemma Bytes3(b: seq<byte>, x: string, y: string, z: string)
    ensures b + Utf8(x + y + z) == b + Utf8(x) + Utf8(y) + Utf8(z)
  {
    Utf8Append(x + y, z);
    Utf8Append(x, y);
  }

  lemma ItemsBytes(b: seq<byte>, v: Json, i: nat)
    requires WellFormed(v) && AllFinite(v) && v.Arr? && i < |v.items|
    ensures b + Utf8(Items(v, i)) == b + Utf8(Comma(i == 0)) + Utf8(Text(v.items[i])) + Utf8(Items(v, i + 1))
  {
    Bytes3(b, Comma(i == 0), Text(v.items[i]), Items(v, i + 1));
  }

  lemma MembersBytes(b: seq<byte>, v: Json, ks: seq<string>, first: bool)
    requires WellFormed(v) && AllFinite(v) && MemberKeys(v, ks) && ks != []
    ensures b + Utf8(Members(v, ks, first))
            == b + Utf8(Comma(first)) + Utf8(Quote(ks[0])) + Utf8([':']) + Utf8(Text(v.members[ks[0]]))
               + Utf8(Members(v, ks[1..], false))
  {
    var key := Comma(first) + Quote(ks[0]) + [':'];
    Bytes3(b, key, Text(v.members[ks[0]]), Members(v, ks[1..], false));
    Bytes3(b, Comma(first), Quote(ks[0]), [':']);
  }

  lemma ArrayBytes(b: seq<byte>, v: Json)
    requires WellFormed(v) && AllFinite(v) && v.Arr?
    ensures b + Utf8(Text(v)) == b + Utf8(['[']) + Utf8(Items(v, 0))
  {
    Utf8Append(['['], Items(v, 0));
  }

  lemma ObjectBytes(b: seq<byte>, v: Json)
    requires WellFormed(v) && AllFinite(v) && v.Obj?
    ensures b + Utf8(Text(v)) == b + Utf8(['{']) + Utf8(Members(v, InOrder(v.members.Keys), true))
  {
    Utf8Append(['{'], Members(v, InOrder(v.members.Keys), true));
  }

  lemma FiniteMembers(v: Json, keys: seq<string>)
    requires v.Obj? && forall k :: k in keys <==> k in v.members
    ensures AllFinite(v) <==> forall j :: 0 <= j < |keys| ==> AllFinite(v.members[keys[j]])
  {
  }

  /**
   The writer fails exactly on a number that is not finite, and otherwise appends the canonical bytes: the
   order in which the map hands out its keys does not show.
   */
  method WriteCanonical(buf: ByteBuffer, v: Json) returns (ok: bool)
    requires WellFormed(v)
    modifies buf
    ensures ok <==> AllFinite(v)
    ensures ok ==> buf.bytes == old(buf.bytes) + Utf8(Text(v))
    decreases v, 1
  {
    match v {
      case Null => buf.WriteString(['n', 'u', 'l', 'l']);
      case Bool(b) =>
        if b { buf.WriteString(['t', 'r', 'u', 'e']); } else { buf.WriteString(['f', 'a', 'l', 's', 'e']); }
      case Num(f) =>
        var s := Es6Number(f);
        if s.None? { return false; }
        buf.WriteString(s.value);
      case Str(s) => buf.WriteJSONString(s);
      case Arr(_) => ok := WriteArray(buf, v); return;
      case Obj(_) => ok := WriteObject(buf, v); return;
    }
    return true;
  }

  method WriteComma(buf: ByteBuffer, first: bool)
    modifies buf
    ensures buf.bytes == old(buf.bytes) + Utf8(Comma(first))
  {
    if !first { buf.WriteString([',']); }
  }

  method WriteKey(buf: ByteBuffer, k: string, first: bool)
    modifies buf
    ensures buf.bytes == old(buf.bytes) + Utf8(Comma(first)) + Utf8(Quote(k)) + Utf8([':'])
  {
    WriteComma(buf, first);
    buf.WriteJSONString(k);
    buf.WriteString([':']);
  }

  /** The first of the remaining members. */
  method WriteMember(buf: ByteBuffer, v: Json, ks: seq<string>, first: bool) returns (ok: bool)
    requires WellFormed(v) && MemberKeys(v, ks) && ks != []
    modifies buf
    ensures ok <==> AllFinite(v.members[ks[0]])
    ensures ok && AllFinite(v) ==>
              buf.bytes + Utf8(Members(v, ks[1..], false)) == old(buf.bytes) + Utf8(Members(v, ks, first))
    decreases v, 0, 0
  {
    if AllFinite(v) { MembersBytes(buf.bytes, v, ks, first); }
    WriteKey(buf, ks[0], first);
    ok := WriteCanonical(buf, v.members[ks[0]]);
  }

  method WriteItem(buf: ByteBuffer, v: Json, i: nat) returns (ok: bool)
    requires WellFormed(v) && v.Arr? && i < |v.items|
    modifies buf
    ensures ok <==> AllFinite(v.items[i])
    ensures ok && AllFinite(v) ==> buf.bytes + Utf8(Items(v, i + 1)) == old(buf.bytes) + Utf8(Items(v, i))
    decreases v, 0, 0
  {
    if AllFinite(v) { ItemsBytes(buf.bytes, v, i); }
    WriteComma(buf, i == 0);
    ok := WriteCanonical(buf, v.items[i]);
  }

  method WriteArray(buf: ByteBuffer, v: Json) returns (ok: bool)
    requires WellFormed(v) && v.Arr?
    modifies buf
    ensures ok <==> AllFinite(v)
    ensures ok ==> buf.bytes == old(buf.bytes) + Utf8(Text(v))
    decreases v, 0, 2
  {
    ghost var start := buf.bytes;
    buf.WriteString(['[']);
    if AllFinite(v) { ArrayBytes(start, v); }
    var i := 0;
    while i < |v.items|
      invariant 0 <= i <= |v.items|
      invariant forall j :: 0 <= j < i ==> AllFinite(v.items[j])
      invariant AllFinite(v) ==> buf.bytes + Utf8(Items(v, i)) == start + Utf8(Text(v))
    {
      var good := WriteItem(buf, v, i);
      if !good { return false; }
      i := i + 1;
    }
    buf.WriteString([']']);
    return true;
  }

  method WriteObject(buf: ByteBuffer, v: Json) returns (ok: bool)
    requires WellFormed(v) && v.Obj?
    modifies buf
    ensures ok <==> AllFinite(v)
    ensures ok ==> buf.bytes == old(buf.bytes) + Utf8(Text(v))
    decreases v, 0, 2
  {
    var keys := SortedKeys(v.members.Keys);
    ghost var start := buf.bytes;
    buf.WriteString(['{']);
    ok := WriteMembers(buf, v, keys);
    FiniteMembers(v, keys);
    if ok {
      ObjectBytes(start, v);
      buf.WriteString(['}']);
    }
  }

  method SortedKeys(s: set<string>) returns (keys: seq<string>)
    ensures keys == InOrder(s) && forall k :: k in keys <==> k in s
  {
    keys := CollectKeys(s);
    keys := SortKeys(keys);
    OrdersUnique(keys, InOrder(s), s);
  }

  method WriteMembers(buf: ByteBuffer, v: Json, keys: seq<string>) returns (ok: bool)
    requires WellFormed(v) && MemberKeys(v, keys)
    modifies buf
    ensures ok <==> forall j :: 0 <= j < |keys| ==> AllFinite(v.members[keys[j]])
    ensures ok && AllFinite(v) ==> buf.bytes + Utf8(['}']) == old(buf.bytes) + Utf8(Members(v, keys, true))
    decreases v, 0, 1
  {
    var i := 0;
    assert keys[0..] == keys;
    while i < |keys|
      invariant 0 <= i <= |keys|
      invariant forall j :: 0 <= j < i ==> AllFinite(v.members[keys[j]])
      invariant AllFinite(v) ==>
                  buf.bytes + Utf8(Members(v, keys[i..], i == 0)) == old(buf.bytes) + Utf8(Members(v, keys, true))
    {
      assert keys[i..][1..] == keys[i + 1..] && keys[i..][0] == keys[i];
      var good := WriteMember(buf, v, keys[i..], i == 0);
      if !good { return false; }
      i := i + 1;
    }
    return true;
  }

  lemma KeySetPush(ks: seq<string>, k: string)
    ensures KeySet(ks + [k]) == KeySet(ks) + {k}
  {
  }

  /** The keys in whatever order the map gives them. */
  method CollectKeys(s: set<string>) returns (keys: seq<string>)
    ensures KeySet(keys) == s
    ensures forall i, j :: 0 <= i < j < |keys| ==> keys[i] != keys[j]
  {
    keys := [];
    var todo := s;
    while todo != {}
      invariant todo <= s && KeySet(keys) == s - todo
      invariant forall i, j :: 0 <= i < j < |keys| ==> keys[i] != keys[j]
    {
      var k :| k in todo;
      assert k !in KeySet(keys);
      todo := todo - {k};
      KeySetPush(keys, k);
      keys := keys + [k];
    }
  }
}
