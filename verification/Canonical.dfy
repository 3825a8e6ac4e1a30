/**
 The canonical printing of a JSON value: object keys sorted, strings quoted as
 `JSON.stringify` quotes them (section 7 of RFC 8259 and section 25.5.2.3 of
 ECMA-262). A Decision's context is hashed in this form, so two contexts must print
 alike exactly when they are the same value.

 Text is a sequence of UTF-16 code units, lone surrogates included.
 */
module Canonical {
  import opened NumberText

  datatype Json =
    | Null
    | Bool(b: bool)
    | Num(number: Finite)
    | Str(s: Text)
    | Arr(items: seq<Json>)
    | Obj(members: seq<Member>)

  datatype Member = Member(key: Text, value: Json)

  const QUOTE: Unit := 34
  const COMMA: Unit := 44
  const COLON: Unit := 58
  const OPEN: Unit := 91
  const BACKSLASH: Unit := 92
  const CLOSE: Unit := 93
  const LEFT: Unit := 123
  const RIGHT: Unit := 125

  predicate IsHigh(c: Unit) { 0xD800 <= c <= 0xDBFF }

  predicate IsLow(c: Unit) { 0xDC00 <= c <= 0xDFFF }

  ghost predicate WellFormed(j: Json) {
    match j
    case Arr(items) => forall i :: 0 <= i < |items| ==> WellFormed(items[i])
    case Obj(members) =>
      && (forall i :: 0 <= i < |members| ==> WellFormed(members[i].value))
      && (forall i, k :: 0 <= i < k < |members| ==> members[i].key != members[k].key)
    case _ => true
  }

  // --------------------------------------------------------------------------
  // Strings
  // --------------------------------------------------------------------------

  function HexDigit(n: int): Unit
    requires 0 <= n < 16
  {
    if n < 10 then 48 + n else 87 + n
  }

  function Hex(c: Unit): Text {
    [HexDigit(c / 4096), HexDigit(c / 256 % 16), HexDigit(c / 16 % 16), HexDigit(c % 16)]
  }

  /** One code unit that is not part of a surrogate pair. */
  function EscapeUnit(c: Unit): Text {
    if c == 8 then [BACKSLASH, 98]
    else if c == 9 then [BACKSLASH, 116]
    else if c == 10 then [BACKSLASH, 110]
    else if c == 12 then [BACKSLASH, 102]
    else if c == 13 then [BACKSLASH, 114]
    else if c == QUOTE then [BACKSLASH, QUOTE]
    else if c == BACKSLASH then [BACKSLASH, BACKSLASH]
    else if c < 32 || IsHigh(c) || IsLow(c) then [BACKSLASH, 117] + Hex(c)
    else [c]
  }

  predicate StartsWithPair(s: Text) { |s| >= 2 && IsHigh(s[0]) && IsLow(s[1]) }

  function Escape(s: Text): Text {
    if s == [] then []
    else if StartsWithPair(s) then [s[0], s[1]] + Escape(s[2..])
    else EscapeUnit(s[0]) + Escape(s[1..])
  }

  function Quote(s: Text): Text { [QUOTE] + Escape(s) + [QUOTE] }

  // --------------------------------------------------------------------------
  // Sorting members
  // --------------------------------------------------------------------------

  /** Code-unit order, the default order of `sort`. */
  predicate Before(a: Text, b: Text) {
    if b == [] then false
    else if a == [] then true
    else if a[0] != b[0] then a[0] < b[0]
    else Before(a[1..], b[1..])
  }

  function Insert(m: Member, ms: seq<Member>): (r: seq<Member>)
    ensures forall x :: x in r <==> x == m || x in ms
    ensures |r| == |ms| + 1
  {
    if ms == [] || Before(m.key, ms[0].key) then [m] + ms
    else [ms[0]] + Insert(m, ms[1..])
  }

  function Sort(ms: seq<Member>): (r: seq<Member>)
    ensures forall x :: x in r <==> x in ms
    ensures |r| == |ms|
  {
    if ms == [] then [] else Insert(ms[0], Sort(ms[1..]))
  }

  // --------------------------------------------------------------------------
  // Printing
  // --------------------------------------------------------------------------

  function Print(j: Json): Text
    decreases j
  {
    match j
    case Null => [110, 117, 108, 108]
    case Bool(b) => if b then [116, 114, 117, 101] else [102, 97, 108, 115, 101]
    case Num(number) => Lexeme(number)
    case Str(s) => Quote(s)
    case Arr(items) => [OPEN] + PrintItems(items) + [CLOSE]
    case Obj(members) => [LEFT] + PrintMembers(j, Sort(members)) + [RIGHT]
  }

  function PrintItems(items: seq<Json>): Text
    decreases items
  {
    if items == [] then []
    else Print(items[0]) + (if |items| == 1 then [] else [COMMA] + PrintItems(items[1..]))
  }

  function PrintMember(whole: Json, m: Member): Text
    requires whole.Obj? && m in whole.members
    decreases whole, 0
  {
    Quote(m.key) + [COLON] + Print(m.value)
  }

  function PrintMembers(whole: Json, ms: seq<Member>): Text
    requires whole.Obj? && forall m :: m in ms ==> m in whole.members
    decreases whole, 1 + |ms|
  {
    if ms == [] then []
    else PrintMember(whole, ms[0]) + (if |ms| == 1 then [] else [COMMA] + PrintMembers(whole, ms[1..]))
  }

  // --------------------------------------------------------------------------
  // Equality up to key order, at every depth
  // --------------------------------------------------------------------------

  ghost predicate Has(ms: seq<Member>, key: Text) {
    exists i :: 0 <= i < |ms| && ms[i].key == key
  }

  ghost predicate Same(a: Json, b: Json)
    decreases a
  {
    match a
    case Arr(items) => b.Arr? && |items| == |b.items| && forall i :: 0 <= i < |items| ==> Same(items[i], b.items[i])
    case Obj(members) =>
      && b.Obj?
      && (forall key :: Has(members, key) <==> Has(b.members, key))
      && (forall i, k :: 0 <= i < |members| && 0 <= k < |b.members| && members[i].key == b.members[k].key ==>
            Same(members[i].value, b.members[k].value))
    case _ => a == b
  }

  // --------------------------------------------------------------------------
  // Quoted strings are self-delimiting
  // --------------------------------------------------------------------------

  lemma HexUnambiguous(c: Unit, d: Unit)
    requires Hex(c) == Hex(d)
    ensures c == d
  {
    var h, g := Hex(c), Hex(d);
    assert h[0] == g[0] && h[1] == g[1] && h[2] == g[2] && h[3] == g[3];
    DigitsTell(c / 4096, d / 4096);
    DigitsTell(c / 256 % 16, d / 256 % 16);
    DigitsTell(c / 16 % 16, d / 16 % 16);
    DigitsTell(c % 16, d % 16);
    HexParts(c);
    HexParts(d);
  }

  lemma DigitsTell(n: int, m: int)
    requires 0 <= n < 16 && 0 <= m < 16 && HexDigit(n) == HexDigit(m)
    ensures n == m
  {}

  /** Division by 256 is division by 16, twice. */
  lemma Sixteenths(n: int, k: int)
    requires n >= 0 && (k == 1 || k == 16 || k == 256)
    ensures n / (16 * k) == n / k / 16
  {
    if k == 1 { } else if k == 16 { } else { }
  }

  lemma HexParts(c: Unit)
    ensures c == 4096 * (c / 4096) + 256 * (c / 256 % 16) + 16 * (c / 16 % 16) + c % 16
  {
    Sixteenths(c, 16);
    Sixteenths(c, 256);
    assert c == 16 * (c / 16) + c % 16;
    assert c / 16 == 16 * (c / 16 / 16) + c / 16 % 16;
    assert c / 256 == 16 * (c / 256 / 16) + c / 256 % 16;
  }

  lemma UnitUnambiguous(c: Unit, d: Unit, x: Text, y: Text)
    requires EscapeUnit(c) + x == EscapeUnit(d) + y
    ensures c == d && x == y
  {
    var u, v := EscapeUnit(c) + x, EscapeUnit(d) + y;
    assert u[0] == v[0];
    if |EscapeUnit(c)| == 1 {
      assert c == u[0];
    } else {
      assert u[1] == v[1];
      if |EscapeUnit(c)| == 6 {
        assert |EscapeUnit(d)| == 6;
        assert Hex(c) == u[2..6] && Hex(d) == v[2..6];
        HexUnambiguous(c, d);
      }
    }
    assert x == u[|EscapeUnit(c)|..] && y == v[|EscapeUnit(d)|..];
  }

  /** A string's escaped body, its closing quote, and whatever follows. */
  function Closed(s: Text, x: Text): Text { Escape(s) + [QUOTE] + x }

  lemma ClosedStep(s: Text, x: Text)
    ensures s == [] ==> Closed(s, x) == [QUOTE] + x
    ensures StartsWithPair(s) ==> Closed(s, x) == [s[0], s[1]] + Closed(s[2..], x)
    ensures s != [] && !StartsWithPair(s) ==> Closed(s, x) == EscapeUnit(s[0]) + Closed(s[1..], x)
  {
    hide EscapeUnit;
  }

  /** What the first emitted unit says about the string. */
  lemma FirstEscaped(s: Text, x: Text)
    ensures var u := Closed(s, x);
            && (u[0] == QUOTE <==> s == [])
            && (IsHigh(u[0]) <==> StartsWithPair(s))
  {
    if s != [] && !StartsWithPair(s) { assert (Escape(s) + [QUOTE] + x)[0] == EscapeUnit(s[0])[0]; }
  }

  lemma {:induction false} EscapeUnambiguous(s: Text, t: Text, x: Text, y: Text)
    requires Closed(s, x) == Closed(t, y)
    ensures s == t && x == y
    decreases |s|
  {
    hide EscapeUnit, Escape, Closed, IsHigh;
    FirstEscaped(s, x);
    FirstEscaped(t, y);
    ClosedStep(s, x);
    ClosedStep(t, y);
    var u, v := Closed(s, x), Closed(t, y);
    if s == [] {
      assert x == u[1..] && y == v[1..];
    } else if StartsWithPair(s) {
      assert u[0] == v[0] && u[1] == v[1] && u[2..] == v[2..];
      assert Closed(s[2..], x) == u[2..] && Closed(t[2..], y) == v[2..];
      EscapeUnambiguous(s[2..], t[2..], x, y);
      assert s == [s[0], s[1]] + s[2..] && t == [t[0], t[1]] + t[2..];
    } else {
      UnitUnambiguous(s[0], t[0], Closed(s[1..], x), Closed(t[1..], y));
      EscapeUnambiguous(s[1..], t[1..], x, y);
      assert s == [s[0]] + s[1..] && t == [t[0]] + t[1..];
    }
  }

  lemma QuoteUnambiguous(s: Text, t: Text, x: Text, y: Text)
    requires Quote(s) + x == Quote(t) + y
    ensures s == t && x == y
  {
    assert Quote(s) + x == [QUOTE] + Closed(s, x) && Quote(t) + y == [QUOTE] + Closed(t, y);
    assert ([QUOTE] + Closed(s, x))[1..] == Closed(s, x) && ([QUOTE] + Closed(t, y))[1..] == Closed(t, y);
    EscapeUnambiguous(s, t, x, y);
  }

  // --------------------------------------------------------------------------
  // Values are self-delimiting too, once a number is followed by no number unit
  // --------------------------------------------------------------------------

  predicate Stops(x: Text) { x == [] || !IsNumberUnit(x[0]) }

  /** The first unit of a printed value says what kind of value it is. */
  function Opening(j: Json): set<Unit> {
    match j
    case Null => {110}
    case Bool(b) => if b then {116} else {102}
    case Num(_) => {48, 49, 50, 51, 52, 53, 54, 55, 56, 57, 43, 45, 46, 101}
    case Str(_) => {QUOTE}
    case Arr(_) => {OPEN}
    case Obj(_) => {LEFT}
  }

  lemma FirstPrinted(j: Json, x: Text)
    requires WellFormed(j)
    ensures Print(j) != [] && (Print(j) + x)[0] in Opening(j)
  {
    hide Lexeme;
    if j.Num? { LexemeUnits(j.number); }
  }

  lemma {:induction false} NumbersUnambiguous(a: Text, b: Text, x: Text, y: Text)
    requires forall i :: 0 <= i < |a| ==> IsNumberUnit(a[i])
    requires forall i :: 0 <= i < |b| ==> IsNumberUnit(b[i])
    requires Stops(x) && Stops(y) && a + x == b + y
    ensures a == b && x == y
    decreases |a|
  {
    assert a != [] ==> (a + x)[0] == a[0];
    assert b != [] ==> (b + y)[0] == b[0];
    assert [] + x == x && [] + y == y;
    if a != [] {
      assert (a + x)[1..] == a[1..] + x && (b + y)[1..] == b[1..] + y;
      NumbersUnambiguous(a[1..], b[1..], x, y);
      assert a == [a[0]] + a[1..] && b == [b[0]] + b[1..];
    }
  }

  lemma SameKind(a: Json, b: Json, x: Text, y: Text)
    requires WellFormed(a) && WellFormed(b) && Print(a) + x == Print(b) + y
    ensures a.Bool? ==> b.Bool? && a.b == b.b
    ensures (a.Null? <==> b.Null?) && (a.Num? <==> b.Num?) && (a.Str? <==> b.Str?)
    ensures (a.Arr? <==> b.Arr?) && (a.Obj? <==> b.Obj?)
  {
    hide Print, WellFormed;
    FirstPrinted(a, x);
    FirstPrinted(b, y);
  }

  lemma {:induction false} PrintUnambiguous(a: Json, b: Json, x: Text, y: Text)
    requires WellFormed(a) && WellFormed(b) && Stops(x) && Stops(y)
    requires Print(a) + x == Print(b) + y
    ensures Same(a, b) && x == y
    decreases a
  {
    hide Quote, PrintItems, PrintMembers, Sort, Stops, Has, Lexeme;
    SameKind(a, b, x, y);
    var u, v := Print(a) + x, Print(b) + y;
    match a
    case Null => assert x == u[4..] && y == v[4..];
    case Bool(p) => assert x == u[|Print(a)|..] && y == v[|Print(b)|..];
    case Num(number) =>
      LexemeUnits(number);
      LexemeUnits(b.number);
      NumbersUnambiguous(Lexeme(number), Lexeme(b.number), x, y);
      LexemeTells(number, b.number);
    case Str(s) => QuoteUnambiguous(s, b.s, x, y);
    case Arr(items) =>
      assert u[1..] == PrintItems(items) + [CLOSE] + x && v[1..] == PrintItems(b.items) + [CLOSE] + y;
      ItemsUnambiguous(items, b.items, x, y);
    case Obj(members) =>
      assert u[1..] == PrintMembers(a, Sort(members)) + [RIGHT] + x;
      assert v[1..] == PrintMembers(b, Sort(b.members)) + [RIGHT] + y;
      MembersUnambiguous(a, Sort(members), b, Sort(b.members), x, y);
      PairedMembersSame(a, b);
  }

  lemma {:induction false} ItemsUnambiguous(a: seq<Json>, b: seq<Json>, x: Text, y: Text)
    requires forall i :: 0 <= i < |a| ==> WellFormed(a[i])
    requires forall i :: 0 <= i < |b| ==> WellFormed(b[i])
    requires PrintItems(a) + [CLOSE] + x == PrintItems(b) + [CLOSE] + y
    ensures |a| == |b| && x == y && forall i :: 0 <= i < |a| ==> Same(a[i], b[i])
    decreases a
  {
    hide Print, Same, WellFormed, PrintItems;
    var u, v := PrintItems(a) + [CLOSE] + x, PrintItems(b) + [CLOSE] + y;
    FirstItem(a, x);
    FirstItem(b, y);
    if a == [] || b == [] {
      assert x == u[1..] && y == v[1..];
    } else {
      var x', y' := AfterItem(a, x), AfterItem(b, y);
      PrintUnambiguous(a[0], b[0], x', y');
      assert x'[0] == y'[0] && x'[1..] == y'[1..];
      if |a| > 1 {
        ItemsUnambiguous(a[1..], b[1..], x, y);
        assert forall i :: 0 < i < |a| ==> a[i] == a[1..][i - 1] && b[i] == b[1..][i - 1];
      }
    }
  }

  /** What follows the first item: a comma and the rest, or the closing bracket. */
  function AfterItem(a: seq<Json>, x: Text): (r: Text)
    requires a != []
    ensures |r| > 0 && r[0] == (if |a| == 1 then CLOSE else COMMA)
    ensures r[1..] == if |a| == 1 then x else PrintItems(a[1..]) + [CLOSE] + x
    ensures PrintItems(a) + [CLOSE] + x == Print(a[0]) + r
  {
    if |a| == 1 then [CLOSE] + x else [COMMA] + (PrintItems(a[1..]) + [CLOSE] + x)
  }

  lemma NoItems(x: Text)
    ensures PrintItems([]) + [CLOSE] + x == [CLOSE] + x
  {}

  lemma FirstItem(a: seq<Json>, x: Text)
    requires forall i :: 0 <= i < |a| ==> WellFormed(a[i])
    ensures a == [] ==> PrintItems(a) + [CLOSE] + x == [CLOSE] + x
    ensures a != [] ==> (PrintItems(a) + [CLOSE] + x)[0] != CLOSE
  {
    hide Print, WellFormed;
    hide PrintItems;
    if a != [] {
      var rest := AfterItem(a, x);
      assert PrintItems(a) + [CLOSE] + x == Print(a[0]) + rest;
      FirstPrinted(a[0], rest);
    } else {
      NoItems(x);
    }
  }

  ghost predicate Paired(p: seq<Member>, q: seq<Member>) {
    |p| == |q| && forall i :: 0 <= i < |p| ==> p[i].key == q[i].key && Same(p[i].value, q[i].value)
  }

  /** What follows the first member. */
  function AfterMember(whole: Json, ms: seq<Member>, x: Text): (r: Text)
    requires ms != [] && whole.Obj? && forall m :: m in ms ==> m in whole.members
    ensures |r| > 0 && r[0] == (if |ms| == 1 then RIGHT else COMMA)
    ensures r[1..] == if |ms| == 1 then x else PrintMembers(whole, ms[1..]) + [RIGHT] + x
    ensures PrintMembers(whole, ms) + [RIGHT] + x == PrintMember(whole, ms[0]) + r
  {
    if |ms| == 1 then [RIGHT] + x else [COMMA] + (PrintMembers(whole, ms[1..]) + [RIGHT] + x)
  }

  lemma {:induction false} MembersUnambiguous(a: Json, p: seq<Member>, b: Json, q: seq<Member>, x: Text, y: Text)
    requires a.Obj? && b.Obj? && WellFormed(a) && WellFormed(b)
    requires forall m :: m in p ==> m in a.members
    requires forall m :: m in q ==> m in b.members
    requires PrintMembers(a, p) + [RIGHT] + x == PrintMembers(b, q) + [RIGHT] + y
    ensures Paired(p, q) && x == y
    decreases a, |p|
  {
    hide Print, Same, Quote;
    var u, v := PrintMembers(a, p) + [RIGHT] + x, PrintMembers(b, q) + [RIGHT] + y;
    if p != [] { var x' := AfterMember(a, p, x); FirstOfMember(a, p[0], x'); }
    if q != [] { var y' := AfterMember(b, q, y); FirstOfMember(b, q[0], y'); }
    if p == [] || q == [] {
      assert p == [] && q == [];
      assert x == u[1..] && y == v[1..];
    } else {
      var x', y' := AfterMember(a, p, x), AfterMember(b, q, y);
      MemberUnambiguous(a, p[0], b, q[0], x', y');
      assert x'[0] == y'[0];
      if |p| > 1 {
        MembersUnambiguous(a, p[1..], b, q[1..], x, y);
        assert forall i :: 0 < i < |p| ==> p[i] == p[1..][i - 1] && q[i] == q[1..][i - 1];
      } else {
        assert x == x'[1..] && y == y'[1..];
      }
    }
  }

  lemma FirstOfMember(whole: Json, m: Member, x: Text)
    requires whole.Obj? && m in whole.members
    ensures (PrintMember(whole, m) + x)[0] == QUOTE
  {}

  lemma {:induction false} MemberUnambiguous(a: Json, m: Member, b: Json, n: Member, x: Text, y: Text)
    requires a.Obj? && b.Obj? && WellFormed(a) && WellFormed(b) && m in a.members && n in b.members
    requires Stops(x) && Stops(y)
    requires PrintMember(a, m) + x == PrintMember(b, n) + y
    ensures m.key == n.key && Same(m.value, n.value) && x == y
    decreases a, 0
  {
    hide Print, Same, Quote;
    var u, v := [COLON] + Print(m.value) + x, [COLON] + Print(n.value) + y;
    assert PrintMember(a, m) + x == Quote(m.key) + u && PrintMember(b, n) + y == Quote(n.key) + v;
    QuoteUnambiguous(m.key, n.key, u, v);
    assert u[1..] == Print(m.value) + x && v[1..] == Print(n.value) + y;
    PrintUnambiguous(m.value, n.value, x, y);
  }

  lemma SortedHas(ms: seq<Member>, key: Text)
    ensures Has(Sort(ms), key) <==> Has(ms, key)
  {
    hide Sort;
    if Has(ms, key) { var i :| 0 <= i < |ms| && ms[i].key == key; assert ms[i] in Sort(ms); }
    if Has(Sort(ms), key) { var i :| 0 <= i < |Sort(ms)| && Sort(ms)[i].key == key; assert Sort(ms)[i] in ms; }
  }

  lemma PairedMembersSame(a: Json, b: Json)
    requires a.Obj? && b.Obj? && WellFormed(a) && WellFormed(b)
    requires Paired(Sort(a.members), Sort(b.members))
    ensures Same(a, b)
  {
    hide Sort;
    var p, q := Sort(a.members), Sort(b.members);
    forall key ensures Has(a.members, key) <==> Has(b.members, key) {
      SortedHas(a.members, key);
      SortedHas(b.members, key);
      if Has(p, key) { var i :| 0 <= i < |p| && p[i].key == key; assert q[i].key == key; }
      if Has(q, key) { var i :| 0 <= i < |q| && q[i].key == key; assert p[i].key == key; }
    }
    forall i, k | 0 <= i < |a.members| && 0 <= k < |b.members| && a.members[i].key == b.members[k].key
      ensures Same(a.members[i].value, b.members[k].value)
    {
      assert a.members[i] in p;
      var j :| 0 <= j < |p| && p[j] == a.members[i];
      assert q[j] in b.members;
      assert q[j] == b.members[k];
    }
  }

  // --------------------------------------------------------------------------
  // Key order does not show
  // --------------------------------------------------------------------------

  lemma {:induction false} BeforeIsStrictOrder(a: Text, b: Text, c: Text)
    ensures !Before(a, a)
    ensures Before(a, b) ==> !Before(b, a)
    ensures a == b || Before(a, b) || Before(b, a)
    ensures Before(a, b) && Before(b, c) ==> Before(a, c)
    decreases |a| + |b| + |c|
  {
    if a != [] {
      BeforeIsStrictOrder(a[1..], if b == [] then [] else b[1..], if c == [] then [] else c[1..]);
      if b != [] { assert a == [a[0]] + a[1..] && b == [b[0]] + b[1..]; }
    }
  }

  ghost predicate KeysAscend(ms: seq<Member>) {
    forall i, k :: 0 <= i < k < |ms| ==> Before(ms[i].key, ms[k].key)
  }

  lemma {:induction false} InsertAscends(m: Member, ms: seq<Member>)
    requires KeysAscend(ms) && !Has(ms, m.key)
    ensures KeysAscend(Insert(m, ms))
    decreases |ms|
  {
    hide Before;
    var r := Insert(m, ms);
    if ms == [] {
    } else if Before(m.key, ms[0].key) {
      forall k | 0 < k < |r| ensures Before(m.key, r[k].key) { BeforeIsStrictOrder(m.key, ms[0].key, r[k].key); }
      assert forall k :: 0 < k < |r| ==> r[k] == ms[k - 1];
    } else {
      var rest := Insert(m, ms[1..]);
      assert forall i :: 0 <= i < |ms| - 1 ==> ms[1..][i] == ms[i + 1];
      InsertAscends(m, ms[1..]);
      BeforeIsStrictOrder(m.key, ms[0].key, m.key);
      assert ms[0].key != m.key;
      forall k | 0 < k < |r| ensures Before(ms[0].key, r[k].key) {
        assert r[k] == rest[k - 1] && rest[k - 1] in rest;
      }
      assert forall i :: 0 < i < |r| ==> r[i] == rest[i - 1];
    }
  }

  lemma {:induction false} SortAscends(ms: seq<Member>)
    requires forall i, k :: 0 <= i < k < |ms| ==> ms[i].key != ms[k].key
    ensures KeysAscend(Sort(ms))
    decreases |ms|
  {
    if ms != [] {
      SortAscends(ms[1..]);
      SortedHas(ms[1..], ms[0].key);
      assert forall i :: 0 <= i < |ms| - 1 ==> ms[1..][i] == ms[i + 1];
      InsertAscends(ms[0], Sort(ms[1..]));
    }
  }

  ghost predicate SameKeys(p: seq<Member>, q: seq<Member>) { forall key :: Has(p, key) <==> Has(q, key) }

  lemma SameKeysStep(p: seq<Member>, q: seq<Member>)
    requires KeysAscend(p) && KeysAscend(q) && SameKeys(p, q) && p != []
    ensures q != [] && p[0].key == q[0].key && SameKeys(p[1..], q[1..])
  {
    hide Before;
    assert Has(p, p[0].key);
    var i :| 0 <= i < |q| && q[i].key == p[0].key;
    assert Has(q, q[0].key);
    var k :| 0 <= k < |p| && p[k].key == q[0].key;
    BeforeIsStrictOrder(p[0].key, q[0].key, p[0].key);
    forall key ensures Has(p[1..], key) <==> Has(q[1..], key) {
      TailHas(p, key);
      TailHas(q, key);
    }
  }

  lemma NoKeys(p: seq<Member>, q: seq<Member>)
    requires SameKeys(p, q)
    ensures p == [] <==> q == []
  {
    assert p != [] ==> Has(p, p[0].key);
    assert q != [] ==> Has(q, q[0].key);
  }

  lemma TailHas(p: seq<Member>, key: Text)
    requires KeysAscend(p) && p != []
    ensures Has(p[1..], key) <==> Has(p, key) && key != p[0].key
  {
    hide Before;
    if Has(p[1..], key) {
      var i :| 0 <= i < |p[1..]| && p[1..][i].key == key;
      assert p[i + 1].key == key;
      BeforeIsStrictOrder(p[0].key, key, key);
    }
    if Has(p, key) && key != p[0].key {
      var i :| 0 <= i < |p| && p[i].key == key;
      assert p[1..][i - 1].key == key;
    }
  }

  lemma {:induction false} SamePrintsAlike(a: Json, b: Json)
    requires WellFormed(a) && WellFormed(b) && Same(a, b)
    ensures Print(a) == Print(b)
    decreases a
  {
    hide Quote, PrintItems, PrintMembers, Sort;
    match a
    case Arr(items) => SameItemsPrintAlike(items, b.items);
    case Obj(members) =>
      SortAscends(members);
      SortAscends(b.members);
      forall key ensures Has(Sort(members), key) <==> Has(Sort(b.members), key) {
        SortedHas(members, key);
        SortedHas(b.members, key);
      }
      SameMembersPrintAlike(a, Sort(members), b, Sort(b.members));
    case _ =>
  }

  lemma {:induction false} SameItemsPrintAlike(a: seq<Json>, b: seq<Json>)
    requires |a| == |b| && forall i :: 0 <= i < |a| ==> WellFormed(a[i]) && WellFormed(b[i]) && Same(a[i], b[i])
    ensures PrintItems(a) == PrintItems(b)
    decreases a
  {
    hide Print, Same, WellFormed;
    if a != [] {
      SamePrintsAlike(a[0], b[0]);
      assert forall i :: 0 <= i < |a| - 1 ==> a[1..][i] == a[i + 1] && b[1..][i] == b[i + 1];
      if |a| > 1 { SameItemsPrintAlike(a[1..], b[1..]); }
    }
  }

  lemma {:induction false} SameMembersPrintAlike(a: Json, p: seq<Member>, b: Json, q: seq<Member>)
    requires a.Obj? && b.Obj? && WellFormed(a) && WellFormed(b) && Same(a, b)
    requires forall m :: m in p ==> m in a.members
    requires forall m :: m in q ==> m in b.members
    requires KeysAscend(p) && KeysAscend(q) && SameKeys(p, q)
    ensures PrintMembers(a, p) == PrintMembers(b, q)
    decreases a, |p|
  {
    hide Print, Before, Quote, Has;
    NoKeys(p, q);
    if p != [] {
      SameKeysStep(p, q);
      NoKeys(p[1..], q[1..]);
      assert p[0] in a.members && q[0] in b.members;
      var i :| 0 <= i < |a.members| && a.members[i] == p[0];
      var k :| 0 <= k < |b.members| && b.members[k] == q[0];
      SamePrintsAlike(p[0].value, q[0].value);
      SameMembersPrintAlike(a, p[1..], b, q[1..]);
    }
  }

  /** Two values print alike exactly when they are the same value up to key order. */
  lemma CanonicalExact(a: Json, b: Json)
    requires WellFormed(a) && WellFormed(b)
    ensures Print(a) == Print(b) <==> Same(a, b)
  {
    hide Print, Same, WellFormed;
    if Print(a) == Print(b) {
      assert Print(a) + [] == Print(b) + [];
      PrintUnambiguous(a, b, [], []);
    }
    if Same(a, b) { SamePrintsAlike(a, b); }
  }
}
