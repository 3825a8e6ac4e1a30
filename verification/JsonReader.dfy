/**
 Reading a JSON text, by the grammar of RFC 8259 without insignificant white space, and
 the canonical text as what it reads as: printing loses nothing, orders what it may
 order, and spells strings as shortly as can be.
 */
module JsonReader {
  import opened Wrappers
  import opened NumberText
  import opened NumberReader
  import opened Canonical

  // --------------------------------------------------------------------------
  // The reader
  // --------------------------------------------------------------------------

  /** The two-character escapes of section 7. */
  function Unescape(c: Unit): Option<Unit> {
    if c == 34 then Some(34)          // "
    else if c == 92 then Some(92)     // \
    else if c == 47 then Some(47)     // /
    else if c == 98 then Some(8)      // b
    else if c == 102 then Some(12)    // f
    else if c == 110 then Some(10)    // n
    else if c == 114 then Some(13)    // r
    else if c == 116 then Some(9)     // t
    else None
  }

  function HexValue(c: Unit): Option<int> {
    if 48 <= c <= 57 then Some(c as int - 48)
    else if 65 <= c <= 70 then Some(c as int - 55)
    else if 97 <= c <= 102 then Some(c as int - 87)
    else None
  }

  function ReadHex(t: Text): Option<Unit>
    requires |t| == 4
  {
    var a, b, c, d := HexValue(t[0]), HexValue(t[1]), HexValue(t[2]), HexValue(t[3]);
    if a.None? || b.None? || c.None? || d.None? then None
    else
      var n := 4096 * a.value + 256 * b.value + 16 * c.value + d.value;
      if 0 <= n < 0x10000 then Some(n) else None
  }

  function Prepend(c: Unit, r: Reading<Text>): (q: Reading<Text>)
    ensures q.Got? ==> r.Got? && q.rest == r.rest
  {
    if r.Failed? then Failed else Got([c] + r.value, r.rest)
  }

  /** One escape, from its backslash on. */
  function ReadEscape(t: Text): (r: Reading<Unit>)
    requires t != []
    ensures r.Got? ==> |r.rest| < |t|
  {
    if |t| < 2 then Failed
    else if t[1] == 117 then
      if |t| < 6 || ReadHex(t[2..6]).None? then Failed else Got(ReadHex(t[2..6]).value, t[6..])
    else if Unescape(t[1]).None? then Failed
    else Got(Unescape(t[1]).value, t[2..])
  }

  /** The rest of a string whose opening quotation mark has been read. */
  function ReadString(t: Text): (r: Reading<Text>)
    ensures r.Got? ==> |r.rest| < |t|
    decreases |t|
  {
    if t == [] then Failed
    else if t[0] == 34 then Got([], t[1..])
    else if t[0] == 92 then
      var c := ReadEscape(t);
      if c.Failed? then Failed else Prepend(c.value, ReadString(c.rest))
    else if t[0] < 32 then Failed
    else Prepend(t[0], ReadString(t[1..]))
  }

  predicate Starts(t: Text, word: Text) { word <= t }

  function ReadValue(t: Text): (r: Reading<Json>)
    ensures r.Got? ==> |r.rest| < |t|
    decreases |t|, 0
  {
    if t == [] then Failed
    else if Starts(t, [110, 117, 108, 108]) then Got(Null, t[4..])
    else if Starts(t, [116, 114, 117, 101]) then Got(Bool(true), t[4..])
    else if Starts(t, [102, 97, 108, 115, 101]) then Got(Bool(false), t[5..])
    else if t[0] == 34 then
      var s := ReadString(t[1..]);
      if s.Failed? then Failed else Got(Str(s.value), s.rest)
    else if t[0] == 91 then
      if |t| > 1 && t[1] == 93 then Got(Arr([]), t[2..])
      else
        var items := ReadItems(t[1..]);
        if items.Failed? then Failed else Got(Arr(items.value), items.rest)
    else if t[0] == 123 then
      if |t| > 1 && t[1] == 125 then Got(Obj([]), t[2..])
      else
        var members := ReadMembers(t[1..]);
        if members.Failed? then Failed else Got(Obj(members.value), members.rest)
    else
      var number := ReadNumber(t);
      if number.Failed? then Failed else Got(Num(number.value), number.rest)
  }

  /** Items and their closing bracket. */
  function ReadItems(t: Text): (r: Reading<seq<Json>>)
    ensures r.Got? ==> |r.rest| < |t|
    decreases |t|, 1
  {
    var first := ReadValue(t);
    if first.Failed? || first.rest == [] then Failed
    else if first.rest[0] == 93 then Got([first.value], first.rest[1..])
    else if first.rest[0] == 44 then
      var others := ReadItems(first.rest[1..]);
      if others.Failed? then Failed else Got([first.value] + others.value, others.rest)
    else Failed
  }

  function ReadMember(t: Text): (r: Reading<Member>)
    ensures r.Got? ==> |r.rest| < |t|
    decreases |t|, 1
  {
    if t == [] || t[0] != 34 then Failed
    else
      var key := ReadString(t[1..]);
      if key.Failed? || key.rest == [] || key.rest[0] != 58 then Failed
      else
        var value := ReadValue(key.rest[1..]);
        if value.Failed? then Failed else Got(Member(key.value, value.value), value.rest)
  }

  /** Members and their closing brace. */
  function ReadMembers(t: Text): (r: Reading<seq<Member>>)
    ensures r.Got? ==> |r.rest| < |t|
    decreases |t|, 2
  {
    var first := ReadMember(t);
    if first.Failed? || first.rest == [] then Failed
    else if first.rest[0] == 125 then Got([first.value], first.rest[1..])
    else if first.rest[0] == 44 then
      var others := ReadMembers(first.rest[1..]);
      if others.Failed? then Failed else Got([first.value] + others.value, others.rest)
    else Failed
  }

  // --------------------------------------------------------------------------
  // Strings read back
  // --------------------------------------------------------------------------

  lemma HexReads(c: Unit)
    ensures |Hex(c)| == 4 && ReadHex(Hex(c)) == Some(c)
  {
    HexDigitReads(c / 4096);
    HexDigitReads(c / 256 % 16);
    HexDigitReads(c / 16 % 16);
    HexDigitReads(c % 16);
    HexParts(c);
  }

  lemma HexDigitReads(n: int)
    requires 0 <= n < 16
    ensures HexValue(HexDigit(n)) == Some(n)
  {}

  lemma UnitReads(c: Unit, y: Text)
    ensures ReadString(EscapeUnit(c) + y) == Prepend(c, ReadString(y))
  {
    hide Hex, ReadHex;
    var t := EscapeUnit(c) + y;
    HexReads(c);
    if |EscapeUnit(c)| == 6 {
      assert t[2..6] == Hex(c) && t[6..] == y;
    } else if |EscapeUnit(c)| == 2 {
      assert t[2..] == y;
    } else {
      assert t[1..] == y;
    }
  }

  lemma {:induction false} StringIsRead(s: Text, x: Text)
    ensures ReadString(Closed(s, x)) == Got(s, x)
    decreases |s|
  {
    hide EscapeUnit, Escape, Closed;
    ClosedStep(s, x);
    var t := Closed(s, x);
    if s == [] {
      ClosingQuote(x);
    } else if StartsWithPair(s) {
      StringIsRead(s[2..], x);
      PairReads(s[0], s[1], Closed(s[2..], x));
      assert [s[0]] + ([s[1]] + s[2..]) == s;
    } else {
      StringIsRead(s[1..], x);
      UnitReads(s[0], Closed(s[1..], x));
      assert [s[0]] + s[1..] == s;
    }
  }

  lemma ClosingQuote(x: Text)
    ensures ReadString([QUOTE] + x) == Got([], x)
  {
    assert ([QUOTE] + x)[1..] == x;
  }

  lemma PairReads(h: Unit, l: Unit, y: Text)
    requires IsHigh(h) && IsLow(l)
    ensures ReadString([h, l] + y) == Prepend(h, Prepend(l, ReadString(y)))
  {
    assert ([h, l] + y)[1..] == [l] + y && ([l] + y)[1..] == y;
  }

  lemma QuoteIsRead(s: Text, x: Text)
    ensures var t := Quote(s) + x; t[0] == 34 && ReadString(t[1..]) == Got(s, x)
  {
    hide Escape, ReadString;
    var t := Quote(s) + x;
    assert t[1..] == Closed(s, x);
    StringIsRead(s, x);
  }

  // --------------------------------------------------------------------------
  // Values read back
  // --------------------------------------------------------------------------

  /** A printed value that opens with neither a letter nor a bracket nor a quotation mark is a number. */
  lemma NumberIsRead(x: Finite, y: Text)
    requires Ends(y)
    ensures ReadValue(Lexeme(x) + y) == Got(Num(x), y)
  {
    hide Lexeme, ReadNumber, ReadItems, ReadMembers, ReadString, Starts;
    LexemeOpens(x);
    LexemeIsRead(x, y);
    var t := Lexeme(x) + y;
    assert t[0] == Lexeme(x)[0];
    NoWord(t);
  }

  lemma LexemeOpens(x: Finite)
    ensures Lexeme(x) != [] && (Lexeme(x)[0] == MINUS || IsDigitUnit(Lexeme(x)[0]))
  {
    hide Magnitude;
    if x.Nonzero? { MagnitudeUnits(x.digits, x.point); }
  }

  lemma NoWord(t: Text)
    requires t != [] && t[0] != 110 && t[0] != 116 && t[0] != 102
    ensures !Starts(t, [110, 117, 108, 108]) && !Starts(t, [116, 114, 117, 101]) && !Starts(t, [102, 97, 108, 115, 101])
  {}

  lemma WordsAreRead(x: Text)
    ensures ReadValue(Print(Null) + x) == Got(Null, x)
    ensures forall b :: ReadValue(Print(Bool(b)) + x) == Got(Bool(b), x)
  {
    assert (Print(Null) + x)[..4] == Print(Null) && (Print(Null) + x)[4..] == x;
    forall b ensures ReadValue(Print(Bool(b)) + x) == Got(Bool(b), x) {
      var w := Print(Bool(b));
      assert (w + x)[..|w|] == w && (w + x)[|w|..] == x;
      assert (w + x)[0] == if b then 116 else 102;
    }
  }

  lemma StrIsRead(s: Text, x: Text)
    ensures ReadValue(Quote(s) + x) == Got(Str(s), x)
  {
    hide ReadString, ReadItems, ReadMembers, ReadNumber, Escape, Starts;
    QuoteIsRead(s, x);
    NoWord(Quote(s) + x);
  }

  /** An opening bracket, then items that do not start with a closing one. */
  lemma ArrIsRead(u: Text, ks: seq<Json>, x: Text)
    requires if ks == [] then u == [CLOSE] + x else u != [] && u[0] != CLOSE && ReadItems(u) == Got(ks, x)
    ensures ReadValue([OPEN] + u) == Got(Arr(ks), x)
  {
    hide ReadItems, ReadMembers, ReadString, ReadNumber, Starts;
    var t := [OPEN] + u;
    NoWord(t);
    assert t[1..] == u;
    if ks == [] { assert t[2..] == x; }
  }

  lemma ObjIsRead(u: Text, ks: seq<Member>, x: Text)
    requires if ks == [] then u == [RIGHT] + x else u != [] && u[0] != RIGHT && ReadMembers(u) == Got(ks, x)
    ensures ReadValue([LEFT] + u) == Got(Obj(ks), x)
  {
    hide ReadItems, ReadMembers, ReadString, ReadNumber, Starts;
    var t := [LEFT] + u;
    NoWord(t);
    assert t[1..] == u;
    if ks == [] { assert t[2..] == x; }
  }

  /** Keys in the order of their code units: at the first that differs, or where the shorter one ends. */
  ghost predicate InOrder(a: Text, b: Text) {
    exists n :: 0 <= n <= |a| && n < |b| && a[..n] == b[..n] && (n == |a| || a[n] < b[n])
  }

  /** Every object's members are in that order, at every depth. */
  ghost predicate Ordered(j: Json) {
    match j
    case Arr(items) => forall i :: 0 <= i < |items| ==> Ordered(items[i])
    case Obj(members) =>
      && (forall i :: 0 <= i < |members| ==> Ordered(members[i].value))
      && (forall i, k :: 0 <= i < k < |members| ==> InOrder(members[i].key, members[k].key))
    case _ => true
  }

  lemma {:induction false} BeforeIsInOrder(a: Text, b: Text)
    ensures Before(a, b) <==> InOrder(a, b)
    decreases |a|
  {
    if a != [] && b != [] {
      BeforeIsInOrder(a[1..], b[1..]);
      if Before(a, b) && a[0] == b[0] {
        var n :| 0 <= n <= |a[1..]| && n < |b[1..]| && a[1..][..n] == b[1..][..n] && (n == |a[1..]| || a[1..][n] < b[1..][n]);
        assert a[..n + 1] == [a[0]] + a[1..][..n] && b[..n + 1] == [b[0]] + b[1..][..n];
        assert InOrder(a, b);
      } else if Before(a, b) {
        assert a[..0] == b[..0];
      }
      if InOrder(a, b) {
        var n :| 0 <= n <= |a| && n < |b| && a[..n] == b[..n] && (n == |a| || a[n] < b[n]);
        if n > 0 {
          assert a[0] == a[..n][0] && b[0] == b[..n][0];
          assert a[1..][..n - 1] == a[..n][1..] && b[1..][..n - 1] == b[..n][1..];
        }
      }
    } else if a == [] && b != [] {
      assert a[..0] == b[..0];
    }
  }

  /** Sorting is by code units, and moves members without changing them. */
  lemma SortOrders(ms: seq<Member>)
    requires forall i, k :: 0 <= i < k < |ms| ==> ms[i].key != ms[k].key
    ensures forall i, k :: 0 <= i < k < |Sort(ms)| ==> InOrder(Sort(ms)[i].key, Sort(ms)[k].key)
    ensures |Sort(ms)| == |ms| && forall m :: m in Sort(ms) <==> m in ms
  {
    hide Sort, Before, InOrder;
    SortAscends(ms);
    forall i, k | 0 <= i < k < |Sort(ms)| ensures InOrder(Sort(ms)[i].key, Sort(ms)[k].key) {
      BeforeIsInOrder(Sort(ms)[i].key, Sort(ms)[k].key);
    }
  }

  /**
   A printed value is read as the same value, members in order, with exactly what follows
   it left over.
   */
  lemma {:induction false} PrintIsRead(j: Json, x: Text) returns (k: Json)
    requires WellFormed(j) && Ends(x)
    ensures ReadValue(Print(j) + x) == Got(k, x) && Same(j, k) && Ordered(k)
    decreases j
  {
    hide Quote, PrintItems, PrintMembers, Sort, ReadValue, ReadItems, ReadMembers, Lexeme, Has, InOrder;
    match j
    case Null => WordsAreRead(x); k := j;
    case Bool(_) => WordsAreRead(x); k := j;
    case Num(n) => NumberIsRead(n, x); k := j;
    case Str(s) => StrIsRead(s, x); k := j;
    case Arr(items) =>
      var ks := ItemsAreRead(items, x);
      var u := PrintItems(items) + [CLOSE] + x;
      FirstItem(items, x);
      ArrIsRead(u, ks, x);
      assert Print(j) + x == [OPEN] + u;
      k := Arr(ks);
    case Obj(members) =>
      SortOrders(members);
      var ks := MembersAreRead(j, Sort(members), x);
      var u := PrintMembers(j, Sort(members)) + [RIGHT] + x;
      FirstMember(j, Sort(members), x);
      ObjIsRead(u, ks, x);
      assert Print(j) + x == [LEFT] + u;
      k := Obj(ks);
      PairedIsSame(j, ks);
  }

  lemma FirstMember(whole: Json, ms: seq<Member>, x: Text)
    requires whole.Obj? && forall m :: m in ms ==> m in whole.members
    ensures var u := PrintMembers(whole, ms) + [RIGHT] + x;
            u != [] && (if ms == [] then u == [RIGHT] + x else u[0] != RIGHT)
  {
    hide PrintMember;
    if ms != [] {
      FirstOfMember(whole, ms[0], AfterMember(whole, ms, x));
    }
  }

  lemma PairedIsSame(j: Json, ks: seq<Member>)
    requires j.Obj? && WellFormed(j) && Paired(Sort(j.members), ks)
    ensures Same(j, Obj(ks))
  {
    hide Sort;
    var p := Sort(j.members);
    forall key ensures Has(j.members, key) <==> Has(ks, key) {
      SortedHas(j.members, key);
      if Has(p, key) { var i :| 0 <= i < |p| && p[i].key == key; assert ks[i].key == key; }
      if Has(ks, key) { var i :| 0 <= i < |ks| && ks[i].key == key; assert p[i].key == key; }
    }
    forall i, k | 0 <= i < |j.members| && 0 <= k < |ks| && j.members[i].key == ks[k].key
      ensures Same(j.members[i].value, ks[k].value)
    {
      assert p[k] in j.members;
      assert p[k] == j.members[i];
    }
  }

  lemma {:induction false} ItemsAreRead(items: seq<Json>, x: Text) returns (ks: seq<Json>)
    requires forall i :: 0 <= i < |items| ==> WellFormed(items[i])
    ensures |ks| == |items| && forall i :: 0 <= i < |items| ==> Same(items[i], ks[i]) && Ordered(ks[i])
    ensures items != [] ==> ReadItems(PrintItems(items) + [CLOSE] + x) == Got(ks, x)
    decreases items
  {
    hide Print, Same, WellFormed, PrintItems, ReadValue, Ordered;
    if items == [] { return []; }
    var rest := AfterItem(items, x);
    var first := PrintIsRead(items[0], rest);
    var others := [];
    if |items| > 1 { others := ItemsAreRead(items[1..], x); }
    ks := [first] + others;
    assert |items| == 1 ==> ks == [first];
    assert forall i :: 0 < i < |items| ==> items[i] == items[1..][i - 1] && ks[i] == others[i - 1];
  }

  lemma {:induction false} MemberIsRead(whole: Json, m: Member, x: Text) returns (k: Member)
    requires whole.Obj? && WellFormed(whole) && m in whole.members && Ends(x)
    ensures ReadMember(PrintMember(whole, m) + x) == Got(k, x)
    ensures k.key == m.key && Same(m.value, k.value) && Ordered(k.value)
    decreases whole, 0
  {
    hide Print, Same, Quote, ReadValue, ReadString, Ordered;
    var value := PrintIsRead(m.value, x);
    var rest := [COLON] + Print(m.value) + x;
    assert PrintMember(whole, m) + x == Quote(m.key) + rest;
    QuoteIsRead(m.key, rest);
    assert rest[1..] == Print(m.value) + x;
    k := Member(m.key, value);
  }

  lemma {:induction false} MembersAreRead(whole: Json, ms: seq<Member>, x: Text) returns (ks: seq<Member>)
    requires whole.Obj? && WellFormed(whole) && forall m :: m in ms ==> m in whole.members
    ensures Paired(ms, ks) && forall i :: 0 <= i < |ks| ==> Ordered(ks[i].value)
    ensures ms != [] ==> ReadMembers(PrintMembers(whole, ms) + [RIGHT] + x) == Got(ks, x)
    decreases whole, 1 + |ms|
  {
    hide Same, WellFormed, PrintMember, PrintMembers, ReadMember, Ordered;
    if ms == [] { return []; }
    var rest := AfterMember(whole, ms, x);
    var first := MemberIsRead(whole, ms[0], rest);
    var others := [];
    if |ms| > 1 { others := MembersAreRead(whole, ms[1..], x); }
    ks := [first] + others;
    assert |ms| == 1 ==> ks == [first];
    assert forall i :: 0 < i < |ms| ==> ms[i] == ms[1..][i - 1] && ks[i] == others[i - 1];
  }

  /** The canonical text of a value reads as that value, in full. */
  lemma CanonicalIsRead(j: Json) returns (k: Json)
    requires WellFormed(j)
    ensures ReadValue(Print(j)) == Got(k, []) && Same(j, k) && Ordered(k)
  {
    hide Print, Same, WellFormed, ReadValue, Ordered;
    assert Print(j) + [] == Print(j);
    k := PrintIsRead(j, []);
  }

  // --------------------------------------------------------------------------
  // Strings are spelled as shortly as can be
  // --------------------------------------------------------------------------

  /** A surrogate has its other half beside it. */
  predicate HasOtherHalf(t: Text, i: nat)
    requires i < |t|
  {
    && (0xD800 <= t[i] < 0xDC00 ==> i + 1 < |t| && 0xDC00 <= t[i + 1] < 0xE000)
    && (0xDC00 <= t[i] < 0xE000 ==> i > 0 && 0xD800 <= t[i - 1] < 0xDC00)
  }

  ghost predicate Encodable(t: Text) { forall i :: 0 <= i < |t| ==> HasOtherHalf(t, i) }

  lemma EncodableAfter(t: Text, n: nat)
    requires Encodable(t) && 0 < n <= |t| && !IsHigh(t[n - 1])
    ensures Encodable(t[n..])
  {
    forall i | 0 <= i < |t[n..]| ensures HasOtherHalf(t[n..], i) { assert HasOtherHalf(t, n + i); }
  }

  lemma EncodableJoin(a: Text, b: Text)
    requires Encodable(a) && Encodable(b)
    ensures Encodable(a + b)
  {
    forall i | 0 <= i < |a + b| ensures HasOtherHalf(a + b, i) {
      if i < |a| { assert HasOtherHalf(a, i); } else { assert HasOtherHalf(b, i - |a|); }
    }
  }

  lemma PairIsEncodable(h: Unit, l: Unit)
    requires IsHigh(h) && IsLow(l)
    ensures Encodable([h, l])
  {}

  /** The escaped text can be encoded, lone surrogates in the string or not. */
  lemma {:induction false} EscapedIsEncodable(s: Text)
    ensures Encodable(Escape(s))
    decreases |s|
  {
    if s == [] {
    } else if StartsWithPair(s) {
      EscapedIsEncodable(s[2..]);
      PairIsEncodable(s[0], s[1]);
      EncodableJoin([s[0], s[1]], Escape(s[2..]));
    } else {
      EscapedIsEncodable(s[1..]);
      UnitIsEncodable(s[0]);
      EncodableJoin(EscapeUnit(s[0]), Escape(s[1..]));
    }
  }

  lemma UnitIsEncodable(c: Unit)
    ensures Encodable(EscapeUnit(c))
    ensures |EscapeUnit(c)| == 6 ==> forall i :: 2 <= i < 6 ==> 48 <= EscapeUnit(c)[i] <= 57 || 97 <= EscapeUnit(c)[i] <= 102
  {}

  /** What a string costs after its first unit, at most. */
  lemma EscapedLength(s: Text)
    requires s != []
    ensures |Escape(s)| <= 6 + |Escape(s[1..])|
    ensures !StartsWithPair(s) ==> |Escape(s)| == |EscapeUnit(s[0])| + |Escape(s[1..])|
  {
    hide EscapeUnit;
    UnitLength(s[0]);
    if StartsWithPair(s) {
      UnitLength(s[1]);
      assert s[1..][1..] == s[2..];
    }
  }

  lemma UnitLength(c: Unit)
    ensures |EscapeUnit(c)| <= 6
    ensures Unescape(c).Some? ==> |EscapeUnit(Unescape(c).value)| <= 2
    ensures c >= 32 && c != 34 && c != 92 && !IsHigh(c) && !IsLow(c) ==> |EscapeUnit(c)| == 1
  {}

  /** An escape stands for one unit, ends in no surrogate, and is as long as that unit's own at least. */
  lemma EscapeTaken(u: Text) returns (n: nat)
    requires u != [] && u[0] == 92 && ReadEscape(u).Got?
    ensures 0 < n <= |u| && ReadEscape(u).rest == u[n..] && !IsHigh(u[n - 1])
    ensures |EscapeUnit(ReadEscape(u).value)| <= n && (n < 6 ==> !IsHigh(ReadEscape(u).value))
    ensures n == 2 || n == 6
  {
    hide EscapeUnit, ReadHex, Unescape;
    if u[1] == 117 {
      n := 6;
      HexIsNoSurrogate(u[2..6]);
      UnitLength(ReadEscape(u).value);
    } else {
      n := 2;
      NoSurrogateEscape(u[1]);
      UnitLength(u[1]);
    }
  }

  lemma HexIsNoSurrogate(h: Text)
    requires |h| == 4 && ReadHex(h).Some?
    ensures !IsHigh(h[3])
  {}

  lemma NoSurrogateEscape(c: Unit)
    requires Unescape(c).Some?
    ensures !IsHigh(c) && !IsHigh(Unescape(c).value)
  {}

  /** A spelling that starts with an escape: how much of it that is, and what it stands for. */
  lemma EscapeSpelled(t: Text, s: Text) returns (n: nat)
    requires Encodable(t) && ReadString(t + [QUOTE]) == Got(s, []) && t != [] && t[0] == 92
    ensures s != [] && 0 < n <= |t| && Encodable(t[n..]) && ReadString(t[n..] + [QUOTE]) == Got(s[1..], [])
    ensures |Escape(s)| <= n + |Escape(s[1..])|
  {
    hide Escape, EscapeUnit, Encodable, ReadEscape;
    var u := t + [QUOTE];
    assert u[0] == 92;
    n := EscapeTaken(u);
    assert u[n..] != [];
    assert u[n..] == t[n..] + [QUOTE] && u[n - 1] == t[n - 1];
    EncodableAfter(t, n);
    var c := ReadEscape(u).value;
    assert s == [c] + s[1..];
    EscapedLength(s);
  }

  /** A spelling that starts with a unit of the string itself: alone, or with its other half. */
  lemma RawSpelled(t: Text, s: Text) returns (n: nat)
    requires Encodable(t) && ReadString(t + [QUOTE]) == Got(s, []) && t != [] && t[0] != 92
    ensures 0 < n <= |t| && n <= |s| && Encodable(t[n..]) && ReadString(t[n..] + [QUOTE]) == Got(s[n..], [])
    ensures |Escape(s)| == n + |Escape(s[n..])|
  {
    hide EscapeUnit, ReadEscape;
    var u := t + [QUOTE];
    assert u[0] == t[0] && u[1..] == t[1..] + [QUOTE];
    UnitLength(t[0]);
    if IsHigh(t[0]) {
      n := 2;
      assert HasOtherHalf(t, 0);
      assert u[1] == t[1] && u[1..][0] == t[1] && u[1..][1..] == u[2..];
      assert u[2..] == t[2..] + [QUOTE];
      assert s[..2] == [t[0], t[1]] && s[1..][1..] == s[2..];
    } else {
      n := 1;
      assert HasOtherHalf(t, 0);
    }
    EncodableAfter(t, n);
    EscapedLength(s);
  }

  /** No other encodable spelling of the same string is shorter. */
  lemma {:induction false} SpellingIsShortest(t: Text, s: Text)
    requires Encodable(t) && ReadString(t + [QUOTE]) == Got(s, [])
    ensures |Escape(s)| <= |t|
    decreases |t|
  {
    hide Escape, EscapeUnit, ReadString, Encodable;
    if t == [] {
      NothingSpelled(s);
    } else if t[0] == 92 {
      var n := EscapeSpelled(t, s);
      SpellingIsShortest(t[n..], s[1..]);
    } else {
      var n := RawSpelled(t, s);
      SpellingIsShortest(t[n..], s[n..]);
    }
  }

  lemma NothingSpelled(s: Text)
    requires ReadString([] + [QUOTE]) == Got(s, [])
    ensures Escape(s) == []
  {
    assert ([] + [QUOTE])[0] == 34;
  }
}
