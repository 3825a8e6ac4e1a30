/**
 The placeholder-order guard. The store binds parameters in order of first appearance
 and ignores the numbers; a statement is safe when that makes no difference.
 */
module StatePlaceholders {
  import opened Wrappers
  import opened Decimals

  // --------------------------------------------------------------------------
  // Occurrences and bindings
  // --------------------------------------------------------------------------

  function DigitRun(s: string): (n: nat)
    ensures n <= |s| && (forall i :: 0 <= i < n ==> IsDigit(s[i])) && (n < |s| ==> !IsDigit(s[n]))
  {
    if s == "" || !IsDigit(s[0]) then 0 else 1 + DigitRun(s[1..])
  }

  /** The numbers of the placeholders outside string literals, in order. */
  function Occurrences(s: string, inString: bool): seq<nat>
    decreases |s|
  {
    if s == "" then []
    else if inString then
      if s[0] != '\'' then Occurrences(s[1..], true)
      else if |s| > 1 && s[1] == '\'' then Occurrences(s[2..], true)
      else Occurrences(s[1..], false)
    else if s[0] == '\'' then Occurrences(s[1..], true)
    else if s[0] != '$' || DigitRun(s[1..]) == 0 then Occurrences(s[1..], false)
    else
      var d := DigitRun(s[1..]);
      [Value(s[1..1 + d])] + Occurrences(s[1 + d..], false)
  }

  /** The distinct numbers in order of first appearance. */
  function Firsts(occ: seq<nat>): seq<nat> {
    if occ == [] then []
    else
      var n := |occ| - 1;
      if occ[n] in occ[..n] then Firsts(occ[..n]) else Firsts(occ[..n]) + [occ[n]]
  }

  /** Parameter positions, counting from 1: which one the store binds, which one the number asks for. */
  ghost predicate BoundTo(occ: seq<nat>, number: nat, position: nat) {
    1 <= position <= |Firsts(occ)| && Firsts(occ)[position - 1] == number
  }

  /** Every occurrence is bound to the parameter its own number names. */
  ghost predicate BindsByNumber(occ: seq<nat>) {
    forall i :: 0 <= i < |occ| ==> BoundTo(occ, occ[i], occ[i])
  }

  function UpTo(n: nat): (r: seq<nat>)
    ensures |r| == n && forall i :: 0 <= i < n ==> r[i] == i + 1
  {
    seq(n, i => i + 1)
  }

  lemma {:induction false} FirstsHas(occ: seq<nat>)
    ensures forall v :: v in Firsts(occ) <==> v in occ
    ensures forall i, j :: 0 <= i < j < |Firsts(occ)| ==> Firsts(occ)[i] != Firsts(occ)[j]
  {
    if occ != [] {
      FirstsHas(occ[..|occ| - 1]);
      assert occ == occ[..|occ| - 1] + [occ[|occ| - 1]];
    }
  }

  /** Bound by number exactly when first appearances are numbered 1, 2, 3, ... */
  lemma BindsIffAscending(occ: seq<nat>)
    ensures BindsByNumber(occ) <==> Firsts(occ) == UpTo(|Firsts(occ)|)
  {
    FirstsHas(occ);
    var f := Firsts(occ);
    if f == UpTo(|f|) {
      forall i | 0 <= i < |occ| ensures BoundTo(occ, occ[i], occ[i]) {
        assert occ[i] in f;
      }
    }
    if BindsByNumber(occ) {
      forall k | 0 <= k < |f| ensures f[k] == k + 1 {
        assert f[k] in occ;
        var i :| 0 <= i < |occ| && occ[i] == f[k];
        assert BoundTo(occ, occ[i], occ[i]);
      }
    }
  }

  // --------------------------------------------------------------------------
  // What a placeholder is
  // --------------------------------------------------------------------------

  /** A statement taken apart; a literal's text is what it stands for, its quotes not yet doubled. */
  datatype Piece = Plain(text: string) | Dollar | Parameter(digits: string) | Literal(text: string)

  predicate Proper(p: Piece) {
    match p
    case Plain(text) => '\'' !in text && '$' !in text
    case Parameter(digits) => digits != "" && forall i :: 0 <= i < |digits| ==> IsDigit(digits[i])
    case _ => true
  }

  function Doubled(s: string): string {
    if s == "" then "" else (if s[0] == '\'' then "''" else [s[0]]) + Doubled(s[1..])
  }

  function Spelled(p: Piece): string {
    match p
    case Plain(text) => text
    case Dollar => "$"
    case Parameter(digits) => "$" + digits
    case Literal(text) => "'" + Doubled(text) + "'"
  }

  function Statement(ps: seq<Piece>): string { if ps == [] then "" else Spelled(ps[0]) + Statement(ps[1..]) }

  /** Each piece ends where the next begins: no digit goes on a number, no quote a literal. */
  predicate Apart(ps: seq<Piece>) {
    ps != [] ==>
      && Proper(ps[0]) && Apart(ps[1..])
      && var t := Statement(ps[1..]);
         && ((ps[0].Dollar? || ps[0].Parameter?) && t != "" ==> !IsDigit(t[0]))
         && (ps[0].Literal? && t != "" ==> t[0] != '\'')
  }

  function Parameters(ps: seq<Piece>): seq<nat>
    requires forall i :: 0 <= i < |ps| ==> Proper(ps[i])
  {
    if ps == [] then []
    else assert Proper(ps[0]); (if ps[0].Parameter? then [Value(ps[0].digits)] else []) + Parameters(ps[1..])
  }

  lemma InsideStep(s: string)
    requires s != ""
    ensures Occurrences(s, true) == if s[0] != '\'' then Occurrences(s[1..], true)
                                    else if |s| > 1 && s[1] == '\'' then Occurrences(s[2..], true)
                                    else Occurrences(s[1..], false)
  {
    hide Value, DigitRun;
  }

  lemma OutsideStep(s: string)
    requires s != "" && (s[0] != '$' || DigitRun(s[1..]) == 0)
    ensures Occurrences(s, false) == Occurrences(s[1..], s[0] == '\'')
  {
    hide Value, DigitRun;
  }

  lemma {:induction false} PlainHasNone(p: string, t: string)
    requires '\'' !in p && '$' !in p
    ensures Occurrences(p + t, false) == Occurrences(t, false)
    decreases |p|
  {
    if p == "" {
      assert p + t == t;
    } else {
      assert (p + t)[0] == p[0] && (p + t)[1..] == p[1..] + t;
      PlainHasNone(p[1..], t);
    }
  }

  /** Inside a literal, a doubled character and the rest. */
  lemma DoubledStep(c: char, rest: string)
    ensures var w := if c == '\'' then "''" else [c]; Occurrences(w + rest, true) == Occurrences(rest, true)
  {
    hide Occurrences;
    var s := (if c == '\'' then "''" else [c]) + rest;
    InsideStep(s);
    if c == '\'' { assert s[2..] == rest; } else { assert s[1..] == rest; }
  }

  lemma QuoteCloses(t: string)
    requires t != "" ==> t[0] != '\''
    ensures Occurrences("'" + t, true) == Occurrences(t, false)
  {
    hide Occurrences;
    InsideStep("'" + t);
    assert ("'" + t)[1..] == t;
  }

  lemma DoubledFirst(text: string, rest: string)
    requires text != ""
    ensures Doubled(text) + rest == (if text[0] == '\'' then "''" else [text[0]]) + (Doubled(text[1..]) + rest)
  {}

  lemma {:induction false} LiteralHasNone(text: string, t: string)
    requires t != "" ==> t[0] != '\''
    ensures Occurrences(Doubled(text) + ("'" + t), true) == Occurrences(t, false)
    decreases |text|
  {
    hide Occurrences, Doubled;
    var close := "'" + t;
    if text == "" {
      NothingDoubled();
      assert "" + close == close;
      QuoteCloses(t);
    } else {
      DoubledFirst(text, close);
      DoubledStep(text[0], Doubled(text[1..]) + close);
      LiteralHasNone(text[1..], t);
    }
  }

  lemma {:induction false} UnclosedHasNone(text: string)
    ensures Occurrences(Doubled(text), true) == []
    decreases |text|
  {
    hide Occurrences, Doubled;
    if text == "" {
      NothingDoubled();
    } else {
      DoubledFirst(text, "");
      assert Doubled(text) + "" == Doubled(text) && Doubled(text[1..]) + "" == Doubled(text[1..]);
      DoubledStep(text[0], Doubled(text[1..]));
      UnclosedHasNone(text[1..]);
    }
  }

  lemma NothingDoubled()
    ensures Doubled("") == "" && Occurrences("", true) == []
  {}

  lemma ParameterIsOne(digits: string, t: string)
    requires digits != "" && (forall i :: 0 <= i < |digits| ==> IsDigit(digits[i])) && (t != "" ==> !IsDigit(t[0]))
    ensures Occurrences("$" + digits + t, false) == [Value(digits)] + Occurrences(t, false)
  {
    var s := "$" + digits + t;
    assert s[1..] == digits + t;
    RunOf(digits, t);
    assert s[1..1 + |digits|] == digits && s[1 + |digits|..] == t;
  }

  lemma {:induction false} RunOf(digits: string, t: string)
    requires (forall i :: 0 <= i < |digits| ==> IsDigit(digits[i])) && (t != "" ==> !IsDigit(t[0]))
    ensures DigitRun(digits + t) == |digits|
    decreases |digits|
  {
    if digits == "" {
      assert digits + t == t;
    } else {
      assert (digits + t)[0] == digits[0] && (digits + t)[1..] == digits[1..] + t;
      RunOf(digits[1..], t);
    }
  }

  lemma DollarIsNone(t: string)
    requires t != "" ==> !IsDigit(t[0])
    ensures Occurrences("$" + t, false) == Occurrences(t, false)
  {
    assert ("$" + t)[1..] == t;
  }

  /** A statement's placeholders are those of its pieces, whatever its literals hold. */
  lemma {:induction false} PiecesOccur(ps: seq<Piece>)
    requires Apart(ps)
    ensures forall i :: 0 <= i < |ps| ==> Proper(ps[i])
    ensures Occurrences(Statement(ps), false) == Parameters(ps)
    decreases |ps|
  {
    hide Occurrences, Proper, Value;
    if ps == [] {
      NothingOccurs();
    } else {
      PiecesOccur(ps[1..]);
      assert forall i :: 0 < i < |ps| ==> ps[i] == ps[1..][i - 1];
      PieceOccurs(ps[0], Statement(ps[1..]));
    }
  }

  lemma QuoteOpens(u: string)
    ensures Occurrences("'" + u, false) == Occurrences(u, true)
  {
    assert ("'" + u)[1..] == u;
  }

  lemma PieceOccurs(p: Piece, t: string)
    requires Proper(p)
    requires (p.Dollar? || p.Parameter?) && t != "" ==> !IsDigit(t[0])
    requires p.Literal? && t != "" ==> t[0] != '\''
    ensures Occurrences(Spelled(p) + t, false) == (if p.Parameter? then [Value(p.digits)] else []) + Occurrences(t, false)
  {
    hide Value, DigitRun, Occurrences, Doubled;
    match p
    case Plain(text) => PlainHasNone(text, t);
    case Dollar => DollarIsNone(t);
    case Parameter(digits) => ParameterIsOne(digits, t);
    case Literal(text) =>
      var u := Doubled(text) + ("'" + t);
      assert Spelled(p) + t == "'" + u;
      QuoteOpens(u);
      LiteralHasNone(text, t);
  }

  /** A literal that is never closed hides the rest. */
  lemma UnclosedHidesTheRest(text: string)
    ensures Occurrences("'" + Doubled(text), false) == []
  {
    QuoteOpens(Doubled(text));
    UnclosedHasNone(text);
  }

  // --------------------------------------------------------------------------
  // The guard
  // --------------------------------------------------------------------------

  datatype OrderError = OrderError(found: nat, expected: nat)

  /** The first occurrence that is neither a re-use nor the next number. */
  ghost predicate FirstOffence(occ: seq<nat>, k: nat, e: OrderError) {
    && k < |occ| && e.found == occ[k] && occ[k] !in occ[..k]
    && e.expected >= 1 && e.found != e.expected && Firsts(occ[..k]) == UpTo(e.expected - 1)
  }

  /** What has been scanned so far and what is still to come. */
  ghost predicate Scanning(sql: string, i: nat, inString: bool, done: seq<nat>) {
    i <= |sql| && Occurrences(sql, false) == done + Occurrences(sql[i..], inString)
  }

  lemma ScanStep(sql: string, i: nat, inString: bool, done: seq<nat>)
    requires i < |sql| && Scanning(sql, i, inString, done)
    ensures inString && sql[i] != '\'' ==> Scanning(sql, i + 1, true, done)
    ensures inString && sql[i] == '\'' && i + 1 < |sql| && sql[i + 1] == '\'' ==> Scanning(sql, i + 2, true, done)
    ensures inString && sql[i] == '\'' && !(i + 1 < |sql| && sql[i + 1] == '\'') ==> Scanning(sql, i + 1, false, done)
    ensures !inString && sql[i] == '\'' ==> Scanning(sql, i + 1, true, done)
    ensures !inString && sql[i] !in {'\'', '$'} ==> Scanning(sql, i + 1, false, done)
    ensures !inString && sql[i] == '$' ==>
              var d := DigitRun(sql[i + 1..]);
              if d == 0 then Scanning(sql, i + 1, false, done)
              else Scanning(sql, i + 1 + d, false, done + [Value(sql[i + 1..i + 1 + d])])
  {
    hide Occurrences, Value;
    var s := sql[i..];
    assert s[1..] == sql[i + 1..] && s[0] == sql[i];
    if |s| > 1 { assert s[2..] == sql[i + 2..] && s[1] == sql[i + 1]; }
    if inString {
      InsideStep(s);
    } else if sql[i] == '$' && DigitRun(sql[i + 1..]) > 0 {
      ParameterStep(sql, i, done);
    } else {
      OutsideStep(s);
    }
  }

  lemma ParameterStep(sql: string, i: nat, done: seq<nat>)
    requires i < |sql| && Scanning(sql, i, false, done) && sql[i] == '$' && DigitRun(sql[i + 1..]) > 0
    ensures var d := DigitRun(sql[i + 1..]); Scanning(sql, i + 1 + d, false, done + [Value(sql[i + 1..i + 1 + d])])
  {
    hide Value;
    var s, d := sql[i..], DigitRun(sql[i + 1..]);
    assert s[1..] == sql[i + 1..];
    assert s[1 + d..] == sql[i + 1 + d..] && s[1..1 + d] == sql[i + 1..i + 1 + d];
  }

  lemma FirstsStep(occ: seq<nat>, v: nat)
    ensures Firsts(occ + [v]) == if v in occ then Firsts(occ) else Firsts(occ) + [v]
  {
    assert (occ + [v])[..|occ|] == occ;
  }

  /** What the guard has seen so far, and the number it expects next. */
  ghost predicate Counted(done: seq<nat>, seen: set<nat>, next: nat) {
    (forall v :: v in seen <==> v in done) && next >= 1 && Firsts(done) == UpTo(next - 1) && |seen| == next - 1
  }

  lemma CountStarts()
    ensures Counted([], {}, 1)
  {}

  lemma CountsOn(done: seq<nat>, seen: set<nat>, next: nat, num: nat)
    requires Counted(done, seen, next) && (num in seen || num == next)
    ensures if num in seen then Counted(done + [num], seen, next) else Counted(done + [num], seen + {num}, next + 1)
  {
    hide Firsts, UpTo;
    FirstsStep(done, num);
    UpToNext(next);
    assert forall v :: v in done + [num] <==> v in done || v == num;
  }

  lemma UpToNext(n: nat)
    requires n >= 1
    ensures UpTo(n) == UpTo(n - 1) + [n]
  {}

  lemma CountEnds(done: seq<nat>, seen: set<nat>, next: nat)
    requires Counted(done, seen, next)
    ensures BindsByNumber(done) && |seen| == |Firsts(done)|
  {
    BindsIffAscending(done);
  }

  method DigitsEnd(sql: string, start: nat) returns (j: nat)
    requires start <= |sql|
    ensures j == start + DigitRun(sql[start..]) <= |sql|
    ensures forall k :: start <= k < j ==> IsDigit(sql[k])
  {
    j := start;
    while j < |sql| && IsDigit(sql[j])
      invariant start <= j <= |sql|
      invariant j + DigitRun(sql[j..]) == start + DigitRun(sql[start..])
    {
      assert sql[j..][1..] == sql[j + 1..];
      j := j + 1;
    }
    assert forall k :: start <= k < j ==> sql[k] == sql[start..][k - start];
  }

  method AssertPlaceholderOrder(sql: string) returns (r: Result<nat, OrderError>)
    ensures r.Ok? <==> BindsByNumber(Occurrences(sql, false))
    ensures r.Ok? ==> r.value == |Firsts(Occurrences(sql, false))|
    ensures r.Err? ==> exists k :: FirstOffence(Occurrences(sql, false), k, r.error)
  {
    hide Occurrences, Firsts, BindsByNumber, Scanning, UpTo, Value, FirstOffence, Counted, DigitRun;
    var seen: set<nat> := {};
    var next := 1;
    var inString := false;
    ghost var done: seq<nat> := [];
    var i := 0;
    NothingScanned(sql);
    CountStarts();
    while i < |sql|
      invariant 0 <= i <= |sql|
      invariant Scanning(sql, i, inString, done)
      invariant Counted(done, seen, next)
    {
      var ch := sql[i];
      ScanStep(sql, i, inString, done);
      if inString {
        if ch == '\'' {
          if i + 1 < |sql| && sql[i + 1] == '\'' { i := i + 1; } else { inString := false; }
        }
        i := i + 1;
        continue;
      }
      if ch == '\'' {
        inString := true;
        i := i + 1;
        continue;
      }
      if ch != '$' {
        i := i + 1;
        continue;
      }
      var j := DigitsEnd(sql, i + 1);
      if j == i + 1 {
        i := i + 1;
        continue;
      }
      var num := Value(sql[i + 1..j]);
      if num !in seen && num != next {
        Offence(sql, j, done, seen, num, next);
        return Err(OrderError(num, next));
      }
      CountsOn(done, seen, next, num);
      if num !in seen {
        seen := seen + {num};
        next := next + 1;
      }
      done := done + [num];
      i := j;
    }
    NothingToScan(sql, inString, done);
    CountEnds(done, seen, next);
    return Ok(|seen|);
  }

  lemma NothingScanned(sql: string)
    ensures Scanning(sql, 0, false, []) && Firsts([]) == UpTo(0)
  {
    assert sql[0..] == sql;
  }

  lemma NothingToScan(sql: string, inString: bool, done: seq<nat>)
    requires Scanning(sql, |sql|, inString, done)
    ensures Occurrences(sql, false) == done
  {
    assert sql[|sql|..] == "";
  }

  lemma {:induction false} FirstsPrefix(occ: seq<nat>, n: nat)
    requires n <= |occ|
    ensures Firsts(occ[..n]) <= Firsts(occ)
    decreases |occ|
  {
    if n < |occ| {
      FirstsPrefix(occ[..|occ| - 1], n);
      assert occ[..|occ| - 1][..n] == occ[..n];
    } else {
      assert occ[..n] == occ;
    }
  }

  lemma Offence(sql: string, j: nat, done: seq<nat>, seen: set<nat>, num: nat, next: nat)
    requires j <= |sql| && Scanning(sql, j, false, done + [num])
    requires Counted(done, seen, next) && num !in seen && num != next
    ensures !BindsByNumber(Occurrences(sql, false))
    ensures FirstOffence(Occurrences(sql, false), |done|, OrderError(num, next))
  {
    hide Occurrences, BindsByNumber, Firsts;
    var occ := Occurrences(sql, false);
    assert occ[..|done|] == done && occ[..|done| + 1] == done + [num];
    FirstsStep(done, num);
    FirstsPrefix(occ, |done| + 1);
    assert Firsts(occ)[next - 1] == num;
    BindsIffAscending(occ);
  }

  // --------------------------------------------------------------------------
  // The scan of the change feed
  // --------------------------------------------------------------------------

  const SCAN_FROM := "SELECT * FROM resource\n"
  const SCAN_WHERE := "      WHERE revision > "
  const SCAN_TAIL := "\n      ORDER BY revision\n      LIMIT "

  function Marker(n: nat): string { "$" + Decimal(n) }

  /** `count` markers from `first` on, separated by commas. */
  function Markers(first: nat, count: nat): string
    decreases count
  {
    if count == 0 then ""
    else Marker(first) + if count == 1 then "" else ", " + Markers(first + 1, count - 1)
  }

  /** The statement `changesSince` builds for a number of kinds. */
  function ScanStatement(kinds: nat, batchSize: nat): string {
    SCAN_FROM + SCAN_WHERE + Marker(1) + KindFilter(kinds) + SCAN_TAIL + Decimal(batchSize)
  }

  predicate Plain(s: string) { forall i :: 0 <= i < |s| ==> s[i] != '$' && s[i] != '\'' }

  lemma {:induction false} PlainIsSkipped(p: string, s: string)
    requires Plain(p)
    ensures Occurrences(p + s, false) == Occurrences(s, false)
    decreases |p|
  {
    if p == "" {
      assert p + s == s;
    } else {
      PlainIsSkipped(p[1..], s);
      assert (p + s)[0] == p[0];
      assert (p + s)[1..] == p[1..] + s;
    }
  }

  lemma {:induction false} DigitsRun(d: string, s: string)
    requires (forall i :: 0 <= i < |d| ==> IsDigit(d[i])) && (s == "" || !IsDigit(s[0]))
    ensures DigitRun(d + s) == |d|
    decreases |d|
  {
    if d == "" {
      assert d + s == s;
    } else {
      DigitsRun(d[1..], s);
      assert (d + s)[0] == d[0] && (d + s)[1..] == d[1..] + s;
    }
  }

  lemma MarkerIsRead(n: nat, s: string)
    requires s == "" || !IsDigit(s[0])
    ensures Occurrences(Marker(n) + s, false) == [n] + Occurrences(s, false)
  {
    hide Decimal, Value;
    var d := Decimal(n);
    var t := Marker(n) + s;
    DigitsRun(d, s);
    ValueOfDecimal(n);
    assert t[1..] == d + s;
    assert t[1..1 + |d|] == d && t[1 + |d|..] == s;
  }

  function Range(first: nat, count: nat): (r: seq<nat>)
    ensures |r| == count && forall i :: 0 <= i < count ==> r[i] == first + i
  {
    seq(count, i => first + i)
  }

  lemma {:induction false} MarkersAreRead(first: nat, count: nat, s: string)
    requires s == "" || !IsDigit(s[0])
    ensures Occurrences(Markers(first, count) + s, false) == Range(first, count) + Occurrences(s, false)
    decreases count
  {
    hide Occurrences, Marker;
    if count == 0 {
      assert "" + s == s;
    } else if count == 1 {
      assert Markers(first, 1) + s == Marker(first) + s;
      MarkerIsRead(first, s);
      assert Range(first, 1) == [first];
    } else {
      var rest := Markers(first + 1, count - 1) + s;
      assert Markers(first, count) + s == Marker(first) + (", " + rest);
      MarkerIsRead(first, ", " + rest);
      PlainIsSkipped(", ", rest);
      MarkersAreRead(first + 1, count - 1, s);
      assert Range(first, count) == [first] + Range(first + 1, count - 1);
    }
  }

  lemma FromIsPlain()
    ensures Plain(SCAN_FROM)
  {}

  lemma WhereIsPlain()
    ensures Plain(SCAN_WHERE)
  {}

  lemma TailIsPlain()
    ensures Plain(SCAN_TAIL)
  {}

  lemma FilterIsPlain()
    ensures Plain(" AND kind IN (") && Plain(")")
  {}

  lemma NumeralIsPlain(n: nat)
    ensures Plain(Decimal(n))
  {
    hide Decimal;
    var d := Decimal(n);
    forall i | 0 <= i < |d| ensures d[i] != '$' && d[i] != '\'' { assert IsDigit(d[i]); }
  }

  lemma TailOccurrences(batchSize: nat)
    ensures Occurrences(SCAN_TAIL + Decimal(batchSize), false) == []
  {
    hide Occurrences, Decimal, Plain;
    TailIsPlain();
    NumeralIsPlain(batchSize);
    PlainIsSkipped(Decimal(batchSize), "");
    assert Decimal(batchSize) + "" == Decimal(batchSize);
    NothingOccurs();
    PlainIsSkipped(SCAN_TAIL, Decimal(batchSize));
  }

  function KindFilter(kinds: nat): string {
    if kinds > 0 then " AND kind IN (" + Markers(2, kinds) + ")" else ""
  }

  lemma FilterOccurrences(kinds: nat, tail: string)
    requires Occurrences(tail, false) == []
    ensures Occurrences(KindFilter(kinds) + tail, false) == Range(2, kinds)
    ensures tail != "" && !IsDigit(tail[0]) ==> !IsDigit((KindFilter(kinds) + tail)[0])
  {
    hide Occurrences, Markers, Plain;
    if kinds > 0 {
      FilterIsPlain();
      var close := ")" + tail;
      PlainIsSkipped(")", tail);
      MarkersAreRead(2, kinds, close);
      PlainIsSkipped(" AND kind IN (", Markers(2, kinds) + close);
      assert KindFilter(kinds) + tail == " AND kind IN (" + (Markers(2, kinds) + close);
    } else {
      assert KindFilter(kinds) + tail == tail;
    }
  }

  /** Its placeholders are `$1, $2, ...`, one for the watermark and one for each kind. */
  lemma ScanOccurrences(kinds: nat, batchSize: nat)
    ensures Occurrences(ScanStatement(kinds, batchSize), false) == UpTo(1 + kinds)
  {
    hide Occurrences, Marker, KindFilter, Decimal, Plain;
    FromIsPlain();
    WhereIsPlain();
    var tail := SCAN_TAIL + Decimal(batchSize);
    TailOccurrences(batchSize);
    FilterOccurrences(kinds, tail);
    var body := KindFilter(kinds) + tail;
    MarkerIsRead(1, body);
    PlainIsSkipped(SCAN_WHERE, Marker(1) + body);
    PlainIsSkipped(SCAN_FROM, SCAN_WHERE + (Marker(1) + body));
    assert ScanStatement(kinds, batchSize) == SCAN_FROM + (SCAN_WHERE + (Marker(1) + body));
    assert UpTo(1 + kinds) == [1] + Range(2, kinds);
  }

  lemma NothingOccurs()
    ensures Occurrences("", false) == []
  {}

  lemma {:induction false} FirstsOfRising(n: nat)
    ensures Firsts(UpTo(n)) == UpTo(n)
  {
    if n > 0 {
      FirstsOfRising(n - 1);
      assert UpTo(n) == UpTo(n - 1) + [n];
      FirstsStep(UpTo(n - 1), n);
    }
  }

  /** However many kinds a controller watches, the guard lets its scan through. */
  lemma ScanIsAccepted(kinds: nat, batchSize: nat)
    ensures BindsByNumber(Occurrences(ScanStatement(kinds, batchSize), false))
    ensures |Firsts(Occurrences(ScanStatement(kinds, batchSize), false))| == 1 + kinds
  {
    hide ScanStatement, Occurrences;
    ScanOccurrences(kinds, batchSize);
    FirstsOfRising(1 + kinds);
    BindsIffAscending(UpTo(1 + kinds));
  }
}
