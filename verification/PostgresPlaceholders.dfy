/**
 The rewriting of `?` markers to `$1..$n`. A statement splits into segments in exactly
 one way, and only placeholders change.
 */
module PostgresPlaceholders {
  import opened Decimals

  datatype Segment =
    | Quoted(mark: char, body: string, closed: bool)   // literal or identifier; inner marks doubled
    | LineComment(body: string)
    | BlockComment(body: string, closed: bool)
    | Operator(second: char)
    | Placeholder
    | Other(c: char)

  function Text(g: Segment): (t: string)
    ensures t != ""
  {
    match g
    case Quoted(mark, body, closed) => [mark] + body + (if closed then [mark] else [])
    case LineComment(body) => "--" + body
    case BlockComment(body, closed) => "/*" + body + (if closed then "*/" else "")
    case Operator(second) => ['?', second]
    case Placeholder => "?"
    case Other(c) => [c]
  }

  function Texts(gs: seq<Segment>): string { if gs == [] then "" else Text(gs[0]) + Texts(gs[1..]) }

  /** The translation, the first placeholder being number `n + 1`. */
  function Emit(gs: seq<Segment>, n: nat): string {
    if gs == [] then ""
    else if gs[0].Placeholder? then "$" + Decimal(n + 1) + Emit(gs[1..], n + 1)
    else Text(gs[0]) + Emit(gs[1..], n)
  }

  // --------------------------------------------------------------------------
  // Splitting
  // --------------------------------------------------------------------------

  const OPERATOR_TAILS: set<char> := {'|', '&', '?'}

  predicate Starts(s: string, c: char) { s != "" && s[0] == c }

  /** Length of the longest run of ordinary characters and doubled marks. */
  function QuotedLength(mark: char, s: string): (n: nat)
    ensures n <= |s| && (n < |s| ==> s[n] == mark && !Starts(s[n + 1..], mark))
  {
    if s == "" then 0
    else if s[0] != mark then 1 + QuotedLength(mark, s[1..])
    else if Starts(s[1..], mark) then 2 + QuotedLength(mark, s[2..])
    else 0
  }

  function LineLength(s: string): (n: nat)
    ensures n <= |s|
  {
    if s == "" || s[0] == '\n' then 0 else 1 + LineLength(s[1..])
  }

  predicate EndsBlock(s: string) { Starts(s, '*') && Starts(s[1..], '/') }

  function BlockLength(s: string): (n: nat)
    ensures n <= |s| && (n < |s| ==> n + 2 <= |s| && s[n] == '*' && s[n + 1] == '/')
  {
    if s == "" || EndsBlock(s) then 0 else 1 + BlockLength(s[1..])
  }

  function FirstQuoted(s: string): Segment
    requires s != ""
  {
    var n := QuotedLength(s[0], s[1..]);
    Quoted(s[0], s[1..1 + n], 1 + n < |s|)
  }

  function FirstLine(s: string): Segment
    requires |s| >= 2
  {
    LineComment(s[2..2 + LineLength(s[2..])])
  }

  function FirstBlock(s: string): Segment
    requires |s| >= 2
  {
    var n := BlockLength(s[2..]);
    BlockComment(s[2..2 + n], 2 + n < |s|)
  }

  function First(s: string): (g: Segment)
    requires s != ""
  {
    if s[0] == '\'' || s[0] == '"' then FirstQuoted(s)
    else if s[0] == '-' && Starts(s[1..], '-') then FirstLine(s)
    else if s[0] == '/' && Starts(s[1..], '*') then FirstBlock(s)
    else if s[0] == '?' then
      if |s| > 1 && s[1] in OPERATOR_TAILS then Operator(s[1]) else Placeholder
    else Other(s[0])
  }

  lemma QuotedIsPrefix(s: string)
    requires s != ""
    ensures var n := QuotedLength(s[0], s[1..]); Text(FirstQuoted(s)) == s[..if 1 + n < |s| then n + 2 else n + 1]
  {
    hide QuotedLength;
    var n := QuotedLength(s[0], s[1..]);
    PrefixInParts(s, n);
    if 1 + n < |s| { assert s[1..][n] == s[1 + n]; }
  }

  lemma PrefixInParts(s: string, n: nat)
    requires 1 + n <= |s|
    ensures s[..n + 1] == [s[0]] + s[1..1 + n]
    ensures 1 + n < |s| ==> s[..n + 2] == [s[0]] + s[1..1 + n] + [s[1 + n]]
  {}

  lemma LineIsPrefix(s: string)
    requires |s| >= 2 && s[0] == '-' && s[1] == '-'
    ensures Text(FirstLine(s)) == s[..2 + LineLength(s[2..])]
  {
    assert s[..2] == "--";
  }

  lemma BlockIsPrefix(s: string)
    requires |s| >= 2 && s[0] == '/' && s[1] == '*'
    ensures var n := BlockLength(s[2..]); Text(FirstBlock(s)) == s[..if 2 + n < |s| then n + 4 else n + 2]
  {
    var n := BlockLength(s[2..]);
    assert s[..2] == "/*";
    if 2 + n < |s| {
      assert s[2..][n] == s[2 + n] && s[2..][n + 1] == s[3 + n];
      assert s[..n + 4] == s[..2] + s[2..2 + n] + [s[2 + n], s[3 + n]];
    }
  }

  lemma FirstIsPrefix(s: string)
    requires s != ""
    ensures |Text(First(s))| <= |s| && Text(First(s)) == s[..|Text(First(s))|]
  {
    hide QuotedLength, LineLength, BlockLength, FirstQuoted, FirstLine, FirstBlock;
    if s[0] == '\'' || s[0] == '"' { QuotedIsPrefix(s); }
    else if s[0] == '-' && Starts(s[1..], '-') { LineIsPrefix(s); }
    else if s[0] == '/' && Starts(s[1..], '*') { BlockIsPrefix(s); }
  }

  function Split(s: string): seq<Segment>
    decreases |s|
  {
    if s == "" then []
    else
      FirstIsPrefix(s);
      [First(s)] + Split(s[|Text(First(s))|..])
  }

  // --------------------------------------------------------------------------
  // The split is the only one
  // --------------------------------------------------------------------------

  /** Ordinary characters and doubled marks only. */
  predicate Doubled(mark: char, body: string) {
    body == "" ||
    (body[0] != mark && Doubled(mark, body[1..])) ||
    (body[0] == mark && Starts(body[1..], mark) && Doubled(mark, body[2..]))
  }

  predicate ClosesAt(s: string, i: nat) { i + 1 < |s| && s[i] == '*' && s[i + 1] == '/' }

  ghost predicate NoClose(body: string) { forall i: nat :: !ClosesAt(body, i) }

  /** What a segment looks like, given the text that follows it. */
  ghost predicate Fits(g: Segment, rest: string) {
    match g
    case Quoted(mark, body, closed) =>
      mark in {'\'', '"'} && Doubled(mark, body) && if closed then !Starts(rest, mark) else rest == ""
    case LineComment(body) => '\n' !in body && (rest == "" || rest[0] == '\n')
    case BlockComment(body, closed) =>
      NoClose(body) && (closed || rest == "")
    case Operator(second) => second in OPERATOR_TAILS
    case Placeholder => rest == "" || rest[0] !in OPERATOR_TAILS
    case Other(c) =>
      c !in {'\'', '"', '?'} && (c == '-' ==> !Starts(rest, '-')) && (c == '/' ==> !Starts(rest, '*'))
  }

  ghost predicate WellSplit(gs: seq<Segment>) {
    gs == [] || (Fits(gs[0], Texts(gs[1..])) && WellSplit(gs[1..]))
  }

  lemma {:induction false} QuotedScan(mark: char, s: string)
    ensures Doubled(mark, s[..QuotedLength(mark, s)])
    decreases |s|
  {
    var n := QuotedLength(mark, s);
    if s != "" {
      if s[0] != mark {
        QuotedScan(mark, s[1..]);
        assert s[..n][1..] == s[1..][..n - 1];
      } else if Starts(s[1..], mark) {
        QuotedScan(mark, s[2..]);
        assert s[..n][2..] == s[2..][..n - 2];
      }
    }
  }

  lemma {:induction false} QuotedRun(mark: char, body: string, rest: string)
    requires Doubled(mark, body)
    ensures !Starts(rest, mark) ==> QuotedLength(mark, body + [mark] + rest) == |body|
    ensures QuotedLength(mark, body) == |body|
    decreases |body|
  {
    var s := body + [mark] + rest;
    if body != "" {
      var k := if body[0] != mark then 1 else 2;
      QuotedRun(mark, body[k..], rest);
      assert s[k..] == body[k..] + [mark] + rest;
    } else {
      assert s[1..] == rest;
    }
  }

  lemma {:induction false} LineScan(s: string)
    ensures '\n' !in s[..LineLength(s)]
    ensures LineLength(s) < |s| ==> s[LineLength(s)] == '\n'
    decreases |s|
  {
    if s != "" && s[0] != '\n' {
      LineScan(s[1..]);
      assert s[..LineLength(s)] == [s[0]] + s[1..][..LineLength(s[1..])];
    }
  }

  lemma {:induction false} LineRun(body: string, rest: string)
    requires '\n' !in body && (rest == "" || rest[0] == '\n')
    ensures LineLength(body + rest) == |body|
    decreases |body|
  {
    if body == "" {
      assert body + rest == rest;
    } else {
      LineRun(body[1..], rest);
      assert (body + rest)[1..] == body[1..] + rest;
    }
  }

  lemma {:induction false} BlockScan(s: string)
    ensures NoClose(s[..BlockLength(s)])
    decreases |s|
  {
    var body := s[..BlockLength(s)];
    if body != "" {
      BlockScan(s[1..]);
      assert body[1..] == s[1..][..BlockLength(s[1..])];
      forall i: nat ensures !ClosesAt(body, i) {
        if i > 0 { assert ClosesAt(body, i) ==> ClosesAt(body[1..], i - 1); }
      }
    }
  }

  lemma {:induction false} BlockRun(body: string, closed: bool, rest: string)
    requires NoClose(body) && (closed || rest == "")
    ensures BlockLength(body + (if closed then "*/" else "") + rest) == |body|
    decreases |body|
  {
    var s := body + (if closed then "*/" else "") + rest;
    if body != "" {
      assert forall i: nat :: ClosesAt(body[1..], i) ==> ClosesAt(body, i + 1);
      BlockRun(body[1..], closed, rest);
      assert s[1..] == body[1..] + (if closed then "*/" else "") + rest;
      assert !ClosesAt(body, 0);
      assert |body| > 1 ==> s[1] == body[1];
    }
  }

  lemma FirstFits(s: string)
    requires s != ""
    ensures |Text(First(s))| <= |s| && Fits(First(s), s[|Text(First(s))|..])
  {
    hide QuotedLength, LineLength, BlockLength, Doubled, Text;
    FirstIsPrefix(s);
    if s[0] == '\'' || s[0] == '"' { QuotedFits(s); }
    else if s[0] == '-' && Starts(s[1..], '-') { LineFits(s); }
    else if s[0] == '/' && Starts(s[1..], '*') { BlockFits(s); }
    else { assert Text(First(s)) == if First(s).Operator? then ['?', s[1]] else [s[0]] by { PlainText(First(s)); } }
  }

  lemma PlainText(g: Segment)
    ensures g.Operator? ==> Text(g) == ['?', g.second]
    ensures g.Placeholder? ==> Text(g) == "?"
    ensures g.Other? ==> Text(g) == [g.c]
  {}

  lemma QuotedFits(s: string)
    requires s != "" && s[0] in {'\'', '"'}
    ensures |Text(FirstQuoted(s))| <= |s| && Fits(FirstQuoted(s), s[|Text(FirstQuoted(s))|..])
  {
    hide QuotedLength, Doubled;
    var n := QuotedLength(s[0], s[1..]);
    QuotedIsPrefix(s);
    QuotedScan(s[0], s[1..]);
    assert s[1..][..n] == s[1..1 + n];
    if 1 + n < |s| { assert s[1..][n + 1..] == s[n + 2..]; }
  }

  lemma LineFits(s: string)
    requires |s| >= 2 && s[0] == '-' && s[1] == '-'
    ensures |Text(FirstLine(s))| <= |s| && Fits(FirstLine(s), s[|Text(FirstLine(s))|..])
  {
    hide LineLength;
    LineIsPrefix(s);
    LineScan(s[2..]);
    assert s[2..][..LineLength(s[2..])] == s[2..2 + LineLength(s[2..])];
  }

  lemma BlockFits(s: string)
    requires |s| >= 2 && s[0] == '/' && s[1] == '*'
    ensures |Text(FirstBlock(s))| <= |s| && Fits(FirstBlock(s), s[|Text(FirstBlock(s))|..])
  {
    hide BlockLength, NoClose;
    BlockIsPrefix(s);
    BlockScan(s[2..]);
    assert s[2..][..BlockLength(s[2..])] == s[2..2 + BlockLength(s[2..])];
  }

  /** Splitting loses nothing, and every segment fits where it stands. */
  lemma {:induction false} SplitIsFaithful(s: string)
    ensures Texts(Split(s)) == s && WellSplit(Split(s))
    decreases |s|
  {
    hide First, Text, Fits;
    if s != "" {
      FirstIsPrefix(s);
      FirstFits(s);
      SplitIsFaithful(s[|Text(First(s))|..]);
    }
  }

  lemma QuotedShape(g: Segment, rest: string)
    requires g.Quoted? && (!g.closed ==> rest == "")
    ensures var s := Text(g) + rest;
            && s[0] == g.mark && 1 + |g.body| <= |s| && (1 + |g.body| < |s| <==> g.closed)
            && s[1..] == (if g.closed then g.body + [g.mark] + rest else g.body)
            && s[1..1 + |g.body|] == g.body
  {
    if g.closed { assert |Text(g) + rest| == 2 + |g.body| + |rest|; }
  }

  lemma QuotedOfFitting(g: Segment, rest: string)
    requires g.Quoted? && Fits(g, rest)
    ensures First(Text(g) + rest) == g
  {
    hide QuotedLength, Doubled, Text;
    QuotedShape(g, rest);
    QuotedRun(g.mark, g.body, rest);
  }

  lemma LineOfFitting(g: Segment, rest: string)
    requires g.LineComment? && Fits(g, rest)
    ensures First(Text(g) + rest) == g
  {
    hide LineLength;
    var s := Text(g) + rest;
    LineRun(g.body, rest);
    assert s[2..] == g.body + rest;
    assert s[2..2 + |g.body|] == g.body;
  }

  lemma BlockOfFitting(g: Segment, rest: string)
    requires g.BlockComment? && Fits(g, rest)
    ensures First(Text(g) + rest) == g
  {
    hide BlockLength, NoClose;
    var s := Text(g) + rest;
    BlockRun(g.body, g.closed, rest);
    assert s[2..] == g.body + (if g.closed then "*/" else "") + rest;
    assert s[2..2 + |g.body|] == g.body;
  }

  lemma FirstOfFitting(g: Segment, rest: string)
    requires Fits(g, rest)
    ensures First(Text(g) + rest) == g
  {
    match g
    case Quoted(_, _, _) => QuotedOfFitting(g, rest);
    case LineComment(_) => LineOfFitting(g, rest);
    case BlockComment(_, _) => BlockOfFitting(g, rest);
    case Operator(second) => assert (Text(g) + rest)[1] == second;
    case Placeholder => assert (Text(g) + rest)[1..] == rest;
    case Other(_) => assert (Text(g) + rest)[1..] == rest;
  }

  /** Any well-formed splitting of a statement is the one the scanner finds. */
  lemma {:induction false} SplitIsUnique(gs: seq<Segment>)
    requires WellSplit(gs)
    ensures Split(Texts(gs)) == gs
    decreases |gs|
  {
    hide First, Text, Fits;
    if gs != [] {
      FirstOfFitting(gs[0], Texts(gs[1..]));
      SplitIsUnique(gs[1..]);
      assert Texts(gs)[|Text(gs[0])|..] == Texts(gs[1..]);
    }
  }

  // --------------------------------------------------------------------------
  // The scanner
  // --------------------------------------------------------------------------

  lemma EmitStep(s: string, n: nat)
    requires s != ""
    ensures |Text(First(s))| <= |s|
    ensures First(s).Placeholder? ==> Emit(Split(s), n) == "$" + Decimal(n + 1) + Emit(Split(s[1..]), n + 1)
    ensures !First(s).Placeholder? ==> Emit(Split(s), n) == Text(First(s)) + Emit(Split(s[|Text(First(s))|..]), n)
  {
    hide First, Decimal;
    FirstIsPrefix(s);
    if First(s).Placeholder? { PlainText(First(s)); }
  }

  lemma TakesSegment(sql: string, i: nat, end: nat, n: nat, out: string)
    requires i < end <= |sql| && !First(sql[i..]).Placeholder? && Text(First(sql[i..])) == sql[i..end]
    ensures out + sql[i..end] + Emit(Split(sql[end..]), n) == out + Emit(Split(sql[i..]), n)
  {
    hide First, Emit, Split, Text;
    EmitStep(sql[i..], n);
    assert sql[i..][end - i..] == sql[end..];
  }

  lemma TakesPlaceholder(sql: string, i: nat, n: nat, out: string)
    requires i < |sql| && First(sql[i..]).Placeholder?
    ensures out + "$" + Decimal(n + 1) + Emit(Split(sql[i + 1..]), n + 1) == out + Emit(Split(sql[i..]), n)
  {
    hide First, Emit, Split, Decimal;
    EmitStep(sql[i..], n);
    assert sql[i..][1..] == sql[i + 1..];
  }

  /** The three lengths, measured from a position. */
  ghost function QuotedFrom(sql: string, i: nat, mark: char): nat
    requires i <= |sql|
  {
    QuotedLength(mark, sql[i..])
  }

  ghost function LineFrom(sql: string, i: nat): nat
    requires i <= |sql|
  {
    LineLength(sql[i..])
  }

  ghost function BlockFrom(sql: string, i: nat): nat
    requires i <= |sql|
  {
    BlockLength(sql[i..])
  }

  lemma QuotedStep(sql: string, i: nat, mark: char)
    requires i <= |sql|
    ensures QuotedFrom(sql, i, mark) ==
            if i == |sql| then 0
            else if sql[i] != mark then 1 + QuotedFrom(sql, i + 1, mark)
            else if i + 1 < |sql| && sql[i + 1] == mark then 2 + QuotedFrom(sql, i + 2, mark)
            else 0
  {
    if i < |sql| { assert sql[i..][1..] == sql[i + 1..]; }
    if i + 1 < |sql| { assert sql[i..][2..] == sql[i + 2..]; }
  }

  lemma LineStep(sql: string, i: nat)
    requires i <= |sql|
    ensures LineFrom(sql, i) == if i == |sql| || sql[i] == '\n' then 0 else 1 + LineFrom(sql, i + 1)
  {
    if i < |sql| { assert sql[i..][1..] == sql[i + 1..]; }
  }

  lemma BlockStep(sql: string, i: nat)
    requires i <= |sql|
    ensures BlockFrom(sql, i) ==
            if i == |sql| || (sql[i] == '*' && i + 1 < |sql| && sql[i + 1] == '/') then 0 else 1 + BlockFrom(sql, i + 1)
  {
    if i < |sql| { assert sql[i..][1..] == sql[i + 1..]; }
  }

  lemma QuotedSlice(sql: string, start: nat)
    requires start < |sql|
    ensures var n := QuotedFrom(sql, start + 1, sql[start]);
            var end := if start + 1 + n < |sql| then start + n + 2 else start + n + 1;
            end <= |sql| && Text(FirstQuoted(sql[start..])) == sql[start..end]
  {
    hide QuotedLength, FirstQuoted, Text;
    var s := sql[start..];
    assert s[1..] == sql[start + 1..] && s[0] == sql[start];
    QuotedIsPrefix(s);
    var n := QuotedLength(s[0], s[1..]);
    assert 1 + n < |s| ==> s[..n + 2] == sql[start..start + n + 2];
    assert s[..n + 1] == sql[start..start + n + 1];
  }

  lemma LineSlice(sql: string, start: nat)
    requires start + 1 < |sql| && sql[start] == '-' && sql[start + 1] == '-'
    ensures var n := LineFrom(sql, start + 2);
            start + 2 + n <= |sql| && Text(FirstLine(sql[start..])) == sql[start..start + 2 + n]
  {
    hide LineLength, FirstLine, Text;
    var s := sql[start..];
    assert s[2..] == sql[start + 2..];
    LineIsPrefix(s);
    assert s[..2 + LineLength(s[2..])] == sql[start..start + 2 + LineLength(s[2..])];
  }

  lemma BlockSlice(sql: string, start: nat)
    requires start + 1 < |sql| && sql[start] == '/' && sql[start + 1] == '*'
    ensures var n := BlockFrom(sql, start + 2);
            var end := if start + 2 + n < |sql| then start + n + 4 else start + n + 2;
            end <= |sql| && Text(FirstBlock(sql[start..])) == sql[start..end]
  {
    hide BlockLength, FirstBlock, Text;
    var s := sql[start..];
    assert s[2..] == sql[start + 2..];
    BlockIsPrefix(s);
    var n := BlockLength(s[2..]);
    assert 2 + n < |s| ==> s[..n + 4] == sql[start..start + n + 4];
    assert s[..n + 2] == sql[start..start + n + 2];
  }

  /** Where the literal or identifier opening at `start` ends. */
  method CopyQuoted(sql: string, start: nat, mark: char) returns (end: nat)
    requires start < |sql| && sql[start] == mark
    ensures start < end <= |sql| && Text(FirstQuoted(sql[start..])) == sql[start..end]
  {
    hide QuotedFrom, FirstQuoted, Text;
    QuotedSlice(sql, start);
    ghost var n := QuotedFrom(sql, start + 1, mark);
    end := start + 1;
    while end < |sql|
      invariant start < end <= |sql|
      invariant end + QuotedFrom(sql, end, mark) == start + 1 + n
    {
      QuotedStep(sql, end, mark);
      if sql[end] == mark {
        if end + 1 < |sql| && sql[end + 1] == mark {
          end := end + 2;
          continue;
        }
        return end + 1;
      }
      end := end + 1;
    }
    QuotedStep(sql, end, mark);
  }

  method CopyLine(sql: string, start: nat) returns (end: nat)
    requires start + 1 < |sql| && sql[start] == '-' && sql[start + 1] == '-'
    ensures start < end <= |sql| && Text(FirstLine(sql[start..])) == sql[start..end]
  {
    hide LineFrom, FirstLine, Text;
    LineSlice(sql, start);
    LineStep(sql, start);
    LineStep(sql, start + 1);
    end := start;
    while end < |sql| && sql[end] != '\n'
      invariant start <= end <= |sql|
      invariant end + LineFrom(sql, end) == start + LineFrom(sql, start)
    {
      LineStep(sql, end);
      end := end + 1;
    }
    LineStep(sql, end);
  }

  method CopyBlock(sql: string, start: nat) returns (end: nat)
    requires start + 1 < |sql| && sql[start] == '/' && sql[start + 1] == '*'
    ensures start < end <= |sql| && Text(FirstBlock(sql[start..])) == sql[start..end]
  {
    hide BlockFrom, FirstBlock, Text;
    BlockSlice(sql, start);
    ghost var n := BlockFrom(sql, start + 2);
    end := start + 2;
    while end < |sql| && !(sql[end] == '*' && end + 1 < |sql| && sql[end + 1] == '/')
      invariant start + 2 <= end <= |sql|
      invariant end + BlockFrom(sql, end) == start + 2 + n
    {
      BlockStep(sql, end);
      end := end + 1;
    }
    BlockStep(sql, end);
    if end < |sql| { end := end + 2; }
  }

  method TranslatePlaceholders(sql: string) returns (out: string)
    ensures out == Emit(Split(sql), 0)
  {
    hide First, Text, Split, Emit, Decimal, FirstQuoted, FirstLine, FirstBlock;
    out := "";
    var n := 0;
    var i := 0;
    assert sql[0..] == sql;
    while i < |sql|
      invariant 0 <= i <= |sql|
      invariant out + Emit(Split(sql[i..]), n) == Emit(Split(sql), 0)
    {
      var ch := sql[i];
      FirstKind(sql, i);
      var end := i + 1;
      if ch == '\'' || ch == '"' {
        end := CopyQuoted(sql, i, ch);
      } else if ch == '-' && i + 1 < |sql| && sql[i + 1] == '-' {
        end := CopyLine(sql, i);
      } else if ch == '/' && i + 1 < |sql| && sql[i + 1] == '*' {
        end := CopyBlock(sql, i);
      } else if ch == '?' {
        if i + 1 < |sql| && sql[i + 1] in OPERATOR_TAILS {
          end := i + 2;
        } else {
          TakesPlaceholder(sql, i, n, out);
          n := n + 1;
          out := out + "$" + Decimal(n);
          i := i + 1;
          continue;
        }
      }
      TakesSegment(sql, i, end, n, out);
      out := out + sql[i..end];
      i := end;
    }
    NothingLeft(n);
    assert sql[|sql|..] == "";
  }

  lemma NothingLeft(n: nat)
    ensures Emit(Split(""), n) == ""
  {}

  predicate Pairs(sql: string, i: nat, a: char, b: char) {
    i + 1 < |sql| && sql[i] == a && sql[i + 1] == b
  }

  predicate IsOperator(sql: string, i: nat) { i + 1 < |sql| && sql[i] == '?' && sql[i + 1] in OPERATOR_TAILS }

  /** Which segment starts at `i`. */
  lemma FirstKind(sql: string, i: nat)
    requires i < |sql|
    ensures var c, g := sql[i], First(sql[i..]);
            && (c in {'\'', '"'} ==> g == FirstQuoted(sql[i..]))
            && (Pairs(sql, i, '-', '-') ==> g == FirstLine(sql[i..]))
            && (Pairs(sql, i, '/', '*') ==> g == FirstBlock(sql[i..]))
            && (g.Placeholder? <==> c == '?' && !IsOperator(sql, i))
            && (IsOperator(sql, i) ==> Text(g) == sql[i..i + 2])
            && (c !in {'\'', '"', '?'} && !Pairs(sql, i, '-', '-') && !Pairs(sql, i, '/', '*') ==> Text(g) == sql[i..i + 1])
  {
    hide QuotedLength, LineLength, BlockLength, Text;
    var s := sql[i..];
    PlainText(First(s));
    assert s[0] == sql[i] && (|s| > 1 ==> s[1] == sql[i + 1] && s[1..][0] == sql[i + 1]);
    if IsOperator(sql, i) { assert sql[i..i + 2] == ['?', sql[i + 1]]; }
    assert sql[i..i + 1] == [sql[i]];
  }

  // --------------------------------------------------------------------------
  // What the translation means
  // --------------------------------------------------------------------------

  function Join(pieces: seq<string>): string { if pieces == [] then "" else pieces[0] + Join(pieces[1..]) }

  function CountPlaceholders(gs: seq<Segment>): nat {
    if gs == [] then 0 else (if gs[0].Placeholder? then 1 else 0) + CountPlaceholders(gs[1..])
  }

  /** A segment's own text, or its number when it is a placeholder. */
  function Piece(gs: seq<Segment>, i: nat, n: nat): string
    requires i < |gs|
  {
    if gs[i].Placeholder? then "$" + Decimal(n + CountPlaceholders(gs[..i]) + 1) else Text(gs[i])
  }

  lemma {:induction false} EmitIsPiecewise(gs: seq<Segment>, n: nat, pieces: seq<string>)
    requires |pieces| == |gs| && forall i :: 0 <= i < |gs| ==> pieces[i] == Piece(gs, i, n)
    ensures Emit(gs, n) == Join(pieces)
    decreases |gs|
  {
    hide Decimal, Text;
    if gs != [] {
      var k := if gs[0].Placeholder? then 1 else 0;
      forall i | 0 <= i < |gs| - 1 ensures pieces[1..][i] == Piece(gs[1..], i, n + k) {
        assert gs[..i + 1][1..] == gs[1..][..i];
        assert pieces[i + 1] == Piece(gs, i + 1, n);
      }
      EmitIsPiecewise(gs[1..], n + k, pieces[1..]);
      assert pieces[0] == Piece(gs, 0, n);
    }
  }

  /** Every numbered marker back to `?`, everything else as it is. */
  function Unmark(gs: seq<Segment>, pieces: seq<string>): string
    requires |gs| == |pieces|
  {
    if gs == [] then "" else (if gs[0].Placeholder? then "?" else pieces[0]) + Unmark(gs[1..], pieces[1..])
  }

  lemma {:induction false} UnmarkRecovers(gs: seq<Segment>, pieces: seq<string>)
    requires |pieces| == |gs| && forall i :: 0 <= i < |gs| && !gs[i].Placeholder? ==> pieces[i] == Text(gs[i])
    ensures Unmark(gs, pieces) == Texts(gs)
    decreases |gs|
  {
    if gs != [] { UnmarkRecovers(gs[1..], pieces[1..]); }
  }

  /**
   The translation goes segment by segment: the k-th placeholder becomes `$k`, every
   other segment stays as written, and undoing the numbering gives the statement back.
   */
  lemma TranslationIsSegmentwise(sql: string)
    ensures var gs := Split(sql);
            var pieces := seq(|gs|, i requires 0 <= i < |gs| => Piece(gs, i, 0));
            && Texts(gs) == sql && WellSplit(gs)
            && Emit(gs, 0) == Join(pieces)
            && Unmark(gs, pieces) == sql
  {
    hide Split, WellSplit, Text;
    var gs := Split(sql);
    var pieces := seq(|gs|, i requires 0 <= i < |gs| => Piece(gs, i, 0));
    SplitIsFaithful(sql);
    EmitIsPiecewise(gs, 0, pieces);
    UnmarkRecovers(gs, pieces);
  }
}
