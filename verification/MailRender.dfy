/**
 One template source rendered to a text and an HTML part. The HTML body is escaped first
 and the values are escaped as they are substituted.
 */
module MailRender {
  import opened Wrappers
  import opened Kinds

  // --------------------------------------------------------------------------
  // Escaping
  // --------------------------------------------------------------------------

  /** `replace(/c/g, w)`. */
  function ReplaceAll(s: string, c: char, w: string): string {
    if s == "" then "" else (if s[0] == c then w else [s[0]]) + ReplaceAll(s[1..], c, w)
  }

  /** The five replacements, one after the other. */
  function EscapeInTurn(s: string): string {
    ReplaceAll(ReplaceAll(ReplaceAll(ReplaceAll(ReplaceAll(s,
      '&', "&amp;"), '<', "&lt;"), '>', "&gt;"), '"', "&quot;"), '\'', "&#39;")
  }

  function EscapeChar(c: char): string {
    match c
    case '&' => "&amp;"
    case '<' => "&lt;"
    case '>' => "&gt;"
    case '"' => "&quot;"
    case '\'' => "&#39;"
    case _ => [c]
  }

  function EscapeHtml(s: string): string { if s == "" then "" else EscapeChar(s[0]) + EscapeHtml(s[1..]) }

  lemma {:induction false} ReplaceSplits(a: string, b: string, c: char, w: string)
    ensures ReplaceAll(a + b, c, w) == ReplaceAll(a, c, w) + ReplaceAll(b, c, w)
    decreases |a|
  {
    if a == "" {
      assert a + b == b;
    } else {
      assert (a + b)[0] == a[0] && (a + b)[1..] == a[1..] + b;
      ReplaceSplits(a[1..], b, c, w);
    }
  }

  lemma {:induction false} ReplaceNone(s: string, c: char, w: string)
    requires c !in s
    ensures ReplaceAll(s, c, w) == s
    decreases |s|
  {
    if s != "" { ReplaceNone(s[1..], c, w); }
  }

  /** What the later replacements leave alone: the entities the earlier ones wrote. */
  lemma EntitiesStay()
    ensures ReplaceAll("&amp;", '<', "&lt;") == "&amp;" && ReplaceAll("&amp;", '>', "&gt;") == "&amp;"
    ensures ReplaceAll("&amp;", '"', "&quot;") == "&amp;" && ReplaceAll("&amp;", '\'', "&#39;") == "&amp;"
    ensures ReplaceAll("&lt;", '>', "&gt;") == "&lt;" && ReplaceAll("&lt;", '"', "&quot;") == "&lt;"
    ensures ReplaceAll("&lt;", '\'', "&#39;") == "&lt;" && ReplaceAll("&gt;", '"', "&quot;") == "&gt;"
    ensures ReplaceAll("&gt;", '\'', "&#39;") == "&gt;" && ReplaceAll("&quot;", '\'', "&#39;") == "&quot;"
  {
    hide ReplaceAll;
    ReplaceNone("&amp;", '<', "&lt;");
    ReplaceNone("&amp;", '>', "&gt;");
    ReplaceNone("&amp;", '"', "&quot;");
    ReplaceNone("&amp;", '\'', "&#39;");
    ReplaceNone("&lt;", '>', "&gt;");
    ReplaceNone("&lt;", '"', "&quot;");
    ReplaceNone("&lt;", '\'', "&#39;");
    ReplaceNone("&gt;", '"', "&quot;");
    ReplaceNone("&gt;", '\'', "&#39;");
    ReplaceNone("&quot;", '\'', "&#39;");
  }

  function One(c: char, d: char, w: string): string { if c == d then w else [c] }

  lemma ReplaceOne(c: char, d: char, w: string)
    ensures ReplaceAll([c], d, w) == One(c, d, w)
  {
    assert [c][1..] == "";
  }

  lemma CharInTurn(c: char)
    ensures EscapeInTurn([c]) == EscapeChar(c)
  {
    hide ReplaceAll;
    EntitiesStay();
    ReplaceOne(c, '&', "&amp;");
    ReplaceOne(c, '<', "&lt;");
    ReplaceOne(c, '>', "&gt;");
    ReplaceOne(c, '"', "&quot;");
    ReplaceOne(c, '\'', "&#39;");
  }

  lemma InTurnSplits(a: string, b: string)
    ensures EscapeInTurn(a + b) == EscapeInTurn(a) + EscapeInTurn(b)
  {
    hide ReplaceAll;
    var a1, b1 := ReplaceAll(a, '&', "&amp;"), ReplaceAll(b, '&', "&amp;");
    var a2, b2 := ReplaceAll(a1, '<', "&lt;"), ReplaceAll(b1, '<', "&lt;");
    var a3, b3 := ReplaceAll(a2, '>', "&gt;"), ReplaceAll(b2, '>', "&gt;");
    var a4, b4 := ReplaceAll(a3, '"', "&quot;"), ReplaceAll(b3, '"', "&quot;");
    ReplaceSplits(a, b, '&', "&amp;");
    ReplaceSplits(a1, b1, '<', "&lt;");
    ReplaceSplits(a2, b2, '>', "&gt;");
    ReplaceSplits(a3, b3, '"', "&quot;");
    ReplaceSplits(a4, b4, '\'', "&#39;");
  }

  /** The five sequential replacements are one map over characters. */
  lemma {:induction false} EscapeIsOnePass(s: string)
    ensures EscapeInTurn(s) == EscapeHtml(s)
    decreases |s|
  {
    hide EscapeInTurn, EscapeChar;
    if s == "" {
      assert EscapeInTurn("") == "" by { EmptyInTurn(); }
    } else {
      assert s == [s[0]] + s[1..];
      InTurnSplits([s[0]], s[1..]);
      CharInTurn(s[0]);
      EscapeIsOnePass(s[1..]);
    }
  }

  lemma EmptyInTurn()
    ensures EscapeInTurn("") == ""
  {}

  // --------------------------------------------------------------------------
  // Substitution
  // --------------------------------------------------------------------------

  predicate IsKeyChar(c: char) { 'a' <= c <= 'z' || 'A' <= c <= 'Z' || '0' <= c <= '9' || c == '_' }

  /** Length of the longest run of white space, or of key characters. */
  function Spaces(s: string): (n: nat)
    ensures n <= |s|
  {
    if s == "" || !IsSpace(s[0]) then 0 else 1 + Spaces(s[1..])
  }

  function KeyChars(s: string): (n: nat)
    ensures n <= |s|
  {
    if s == "" || !IsKeyChar(s[0]) then 0 else 1 + KeyChars(s[1..])
  }

  datatype Match = Match(length: nat, key: string)

  predicate Doubles(s: string, c: char) { |s| >= 2 && s[0] == c && s[1] == c }

  /** A placeholder at the very start: braces, optional white space, a key, optional white space, braces. */
  function MatchHere(s: string): (m: Option<Match>)
    ensures m.Some? ==> 0 < m.value.length <= |s|
  {
    if !Doubles(s, '{') then None
    else
      var a := 2 + Spaces(s[2..]);
      var b := a + KeyChars(s[a..]);
      var c := b + Spaces(s[b..]);
      if a == b || !Doubles(s[c..], '}') then None else Some(Match(c + 2, s[a..b]))
  }

  datatype MissingParam = MissingParam(param: string)

  type Params = map<string, string>

  /** What a substituted value goes through on its way in. */
  datatype Transform = Plainly | Escaping

  function Apply(t: Transform, value: string): string { if t.Escaping? then EscapeHtml(value) else value }

  /** Leftmost matches, each consumed whole; the first parameter not supplied is the failure. */
  function Substitute(source: string, params: Params, t: Transform): Result<string, MissingParam>
    decreases |source|
  {
    if source == "" then Ok("")
    else match MatchHere(source)
         case None =>
           var rest := Substitute(source[1..], params, t);
           if rest.Err? then rest else Ok([source[0]] + rest.value)
         case Some(m) =>
           if m.key !in params then Err(MissingParam(m.key))
           else
             var rest := Substitute(source[m.length..], params, t);
             if rest.Err? then rest else Ok(Apply(t, params[m.key]) + rest.value)
  }

  // --------------------------------------------------------------------------
  // Escaping commutes with substitution
  // --------------------------------------------------------------------------

  predicate IsSpecial(c: char) { c in {'&', '<', '>', '"', '\''} }

  lemma EscapedChar(c: char)
    ensures !IsSpecial(c) ==> EscapeChar(c) == [c]
    ensures IsSpecial(c) ==> EscapeChar(c) != "" && EscapeChar(c)[0] == '&'
    ensures IsSpecial(c) ==> '{' !in EscapeChar(c)
  {}

  /** The escaped text begins as the text does, or with an ampersand. */
  lemma EscapedHead(s: string)
    ensures s == "" <==> EscapeHtml(s) == ""
    ensures s != "" ==> EscapeHtml(s)[0] == if IsSpecial(s[0]) then '&' else s[0]
    ensures s != "" && !IsSpecial(s[0]) ==> EscapeHtml(s)[1..] == EscapeHtml(s[1..])
  {
    if s != "" { EscapedChar(s[0]); }
  }

  predicate Ordinary(s: string) { forall i :: 0 <= i < |s| ==> !IsSpecial(s[i]) }

  lemma {:induction false} SpacesEscaped(s: string)
    ensures Spaces(EscapeHtml(s)) == Spaces(s) && Ordinary(s[..Spaces(s)])
    decreases |s|
  {
    hide EscapeHtml;
    EscapedHead(s);
    if s != "" && IsSpace(s[0]) {
      SpacesEscaped(s[1..]);
      assert s[..Spaces(s)] == [s[0]] + s[1..][..Spaces(s[1..])];
    }
  }

  lemma {:induction false} KeyCharsEscaped(s: string)
    ensures KeyChars(EscapeHtml(s)) == KeyChars(s) && Ordinary(s[..KeyChars(s)])
    decreases |s|
  {
    hide EscapeHtml;
    EscapedHead(s);
    if s != "" && IsKeyChar(s[0]) {
      KeyCharsEscaped(s[1..]);
      assert s[..KeyChars(s)] == [s[0]] + s[1..][..KeyChars(s[1..])];
    }
  }

  lemma {:induction false} OrdinaryPrefix(s: string, n: nat)
    requires n <= |s| && Ordinary(s[..n])
    ensures n <= |EscapeHtml(s)| && EscapeHtml(s)[..n] == s[..n] && EscapeHtml(s)[n..] == EscapeHtml(s[n..])
    decreases n
  {
    hide EscapeHtml;
    if n > 0 {
      EscapedHead(s);
      assert s[..n][0] == s[0];
      assert s[1..][..n - 1] == s[..n][1..];
      OrdinaryPrefix(s[1..], n - 1);
      var e := EscapeHtml(s);
      assert e[..n] == [e[0]] + e[1..][..n - 1] && s[..n] == [s[0]] + s[1..][..n - 1];
      assert e[n..] == e[1..][n - 1..] && s[1..][n - 1..] == s[n..];
    } else {
      assert s[0..] == s && EscapeHtml(s)[0..] == EscapeHtml(s);
    }
  }

  lemma DoublesEscaped(s: string, c: char)
    requires c in {'{', '}'}
    ensures Doubles(EscapeHtml(s), c) <==> Doubles(s, c)
  {
    hide EscapeHtml;
    EscapedHead(s);
    if s != "" { EscapedHead(s[1..]); }
  }

  /** The first `n` characters are not touched by escaping. */
  ghost predicate Aligned(s: string, n: nat) {
    var e := EscapeHtml(s);
    n <= |s| && n <= |e| && e[..n] == s[..n] && e[n..] == EscapeHtml(s[n..])
  }

  lemma AlignedStep(s: string, a: nat, b: nat)
    requires Aligned(s, a) && a <= b <= |s| && Ordinary(s[a..][..b - a])
    ensures Aligned(s, b)
  {
    hide EscapeHtml, Ordinary;
    var e, f := EscapeHtml(s), EscapeHtml(s[a..]);
    OrdinaryPrefix(s[a..], b - a);
    assert e == e[..a] + f && s == s[..a] + s[a..];
    assert e[..b] == e[..a] + f[..b - a] && s[..b] == s[..a] + s[a..][..b - a];
    assert e[b..] == f[b - a..] && s[b..] == s[a..][b - a..];
  }

  lemma BracesAligned(s: string, a: nat, c: char)
    requires Aligned(s, a) && Doubles(s[a..], c) && c in {'{', '}'}
    ensures a + 2 <= |s| && Aligned(s, a + 2)
  {
    hide EscapeHtml;
    AlignedStep(s, a, a + 2);
  }

  /** Escaping neither makes nor breaks a placeholder, and leaves it character for character. */
  lemma MatchEscaped(s: string)
    ensures MatchHere(EscapeHtml(s)) == MatchHere(s)
    ensures MatchHere(s).Some? ==> Aligned(s, MatchHere(s).value.length)
  {
    hide EscapeHtml, Spaces, KeyChars, Doubles, Ordinary, Aligned, MatchHere;
    DoublesEscaped(s, '{');
    NoBracesNoMatch(s);
    NoBracesNoMatch(EscapeHtml(s));
    if Doubles(s, '{') {
      NothingYet(s);
      assert s[0..] == s;
      BracesAligned(s, 0, '{');
      SpacesEscaped(s[2..]);
      var a := 2 + Spaces(s[2..]);
      AlignedStep(s, 2, a);
      KeyCharsEscaped(s[a..]);
      var b := a + KeyChars(s[a..]);
      AlignedStep(s, a, b);
      SpacesEscaped(s[b..]);
      var c := b + Spaces(s[b..]);
      AlignedStep(s, b, c);
      DoublesEscaped(s[c..], '}');
      if Doubles(s[c..], '}') { BracesAligned(s, c, '}'); }
      SameMatch(s, a, b, c);
    }
  }

  lemma NoBracesNoMatch(s: string)
    ensures !Doubles(s, '{') ==> MatchHere(s).None?
  {
    hide Doubles;
  }

  lemma NothingYet(s: string)
    ensures Aligned(s, 0)
  {
    hide EscapeHtml;
  }

  lemma SameMatch(s: string, a: nat, b: nat, c: nat)
    requires Doubles(s, '{') && Doubles(EscapeHtml(s), '{')
    requires Aligned(s, 2) && Aligned(s, a) && Aligned(s, b) && Aligned(s, c)
    requires a == 2 + Spaces(s[2..]) == 2 + Spaces(EscapeHtml(s[2..]))
    requires b == a + KeyChars(s[a..]) == a + KeyChars(EscapeHtml(s[a..]))
    requires c == b + Spaces(s[b..]) == b + Spaces(EscapeHtml(s[b..]))
    requires Doubles(EscapeHtml(s[c..]), '}') <==> Doubles(s[c..], '}')
    ensures MatchHere(EscapeHtml(s)) == MatchHere(s)
    ensures MatchHere(s).Some? ==> Doubles(s[c..], '}') && MatchHere(s).value.length == c + 2
  {
    hide EscapeHtml, Spaces, KeyChars, Doubles;
    var e := EscapeHtml(s);
    assert e[a..b] == e[..b][a..] && s[a..b] == s[..b][a..];
  }

  lemma {:induction false} EscapeSplits(a: string, b: string)
    ensures EscapeHtml(a + b) == EscapeHtml(a) + EscapeHtml(b)
    decreases |a|
  {
    hide EscapeChar;
    if a == "" {
      assert a + b == b;
    } else {
      assert (a + b)[0] == a[0] && (a + b)[1..] == a[1..] + b;
      EscapeSplits(a[1..], b);
    }
  }

  lemma CopyStep(s: string, params: Params, t: Transform)
    requires s != "" && s[0] != '{'
    ensures Substitute(s, params, t) == Prefixed([s[0]], Substitute(s[1..], params, t))
  {
    hide Substitute;
    assert MatchHere(s).None?;
    CopyHere(s, params, t);
  }

  lemma CopyHere(s: string, params: Params, t: Transform)
    requires s != "" && MatchHere(s).None?
    ensures Substitute(s, params, t) == Prefixed([s[0]], Substitute(s[1..], params, t))
  {
    hide MatchHere;
  }

  lemma PrefixedTwice(a: string, b: string, r: Result<string, MissingParam>)
    ensures Prefixed(a, Prefixed(b, r)) == Prefixed(a + b, r) && Prefixed("", r) == r
  {
    if r.Ok? { assert a + (b + r.value) == (a + b) + r.value && "" + r.value == r.value; }
  }

  /** Text without an opening brace is copied. */
  lemma {:induction false} NoBraceIsCopied(p: string, s: string, params: Params, t: Transform)
    requires '{' !in p
    ensures Substitute(p + s, params, t) == Prefixed(p, Substitute(s, params, t))
    decreases |p|
  {
    hide Substitute, Prefixed;
    if p == "" {
      assert p + s == s;
      PrefixedTwice("", "", Substitute(s, params, t));
    } else {
      assert (p + s)[0] == p[0] && (p + s)[1..] == p[1..] + s;
      CopyStep(p + s, params, t);
      NoBraceIsCopied(p[1..], s, params, t);
      PrefixedTwice([p[0]], p[1..], Substitute(s, params, t));
      assert [p[0]] + p[1..] == p;
    }
  }

  function Prefixed(p: string, r: Result<string, MissingParam>): Result<string, MissingParam> {
    if r.Err? then r else Ok(p + r.value)
  }

  function Escaped(r: Result<string, MissingParam>): Result<string, MissingParam> {
    if r.Err? then r else Ok(EscapeHtml(r.value))
  }

  /**
   Substituting escaped values into the escaped source is escaping the substituted text,
   missing parameters included.
   */
  lemma {:induction false} EscapeCommutes(source: string, params: Params)
    ensures Substitute(EscapeHtml(source), params, Escaping) == Escaped(Substitute(source, params, Plainly))
    decreases |source|
  {
    hide MatchHere, EscapeHtml, EscapeChar;
    EscapedHead(source);
    MatchEscaped(source);
    if source != "" {
      if MatchHere(source).Some? {
        var m := MatchHere(source).value;
        EscapeCommutes(source[m.length..], params);
        if m.key in params && Substitute(source[m.length..], params, Plainly).Ok? {
          EscapeSplits(params[m.key], Substitute(source[m.length..], params, Plainly).value);
        }
      } else {
        EscapeCommutes(source[1..], params);
        StepCommutes(source, params);
      }
    }
  }

  lemma StepCommutes(source: string, params: Params)
    requires source != "" && MatchHere(source).None?
    requires Substitute(EscapeHtml(source[1..]), params, Escaping) == Escaped(Substitute(source[1..], params, Plainly))
    ensures Substitute(EscapeHtml(source), params, Escaping) == Escaped(Substitute(source, params, Plainly))
  {
    hide MatchHere, EscapeChar;
    var c, rest := source[0], Substitute(source[1..], params, Plainly);
    EscapedChar(c);
    MatchEscaped(source);
    assert EscapeHtml(source) == EscapeChar(c) + EscapeHtml(source[1..]);
    if rest.Ok? {
      EscapeSplits([c], rest.value);
      EscapeOne(c);
    }
    if IsSpecial(c) { NoBraceIsCopied(EscapeChar(c), EscapeHtml(source[1..]), params, Escaping); }
  }

  lemma EscapeOne(c: char)
    ensures EscapeHtml([c]) == EscapeChar(c)
  {
    assert [c][1..] == "";
  }

  // --------------------------------------------------------------------------
  // The two parts
  // --------------------------------------------------------------------------

  function NewlineRun(s: string): (n: nat)
    ensures n <= |s|
  {
    if s == "" || s[0] != '\n' then 0 else 1 + NewlineRun(s[1..])
  }

  /** `split(/\n{2,}/)`. */
  function SplitParagraphs(s: string): (ps: seq<string>)
    ensures ps != []
    decreases |s|
  {
    if s == "" then [""]
    else if NewlineRun(s) >= 2 then [""] + SplitParagraphs(s[NewlineRun(s)..])
    else
      var rest := SplitParagraphs(s[1..]);
      [[s[0]] + rest[0]] + rest[1..]
  }

  /** Trimmed, the empty ones dropped. */
  function Kept(ps: seq<string>): seq<string> {
    if ps == [] then []
    else (if Trim(ps[0]) == "" then [] else [Trim(ps[0])]) + Kept(ps[1..])
  }

  function Paragraph(p: string): string { "<p>" + ReplaceAll(p, '\n', "<br>") + "</p>" }

  function JoinParagraphs(ps: seq<string>): string {
    if ps == [] then ""
    else Paragraph(ps[0]) + if |ps| == 1 then "" else "\n" + JoinParagraphs(ps[1..])
  }

  datatype Rendered = Rendered(text: string, html: string)

  function Render(source: string, params: Params): Result<Rendered, MissingParam> {
    var text := Substitute(source, params, Plainly);
    if text.Err? then Err(text.error)
    else
      var body := Substitute(EscapeHtml(source), params, Escaping);
      if body.Err? then Err(body.error)
      else Ok(Rendered(Trim(text.value), JoinParagraphs(Kept(SplitParagraphs(body.value)))))
  }

  function EscapeEach(ps: seq<string>): (r: seq<string>)
    ensures |r| == |ps| && forall i :: 0 <= i < |ps| ==> r[i] == EscapeHtml(ps[i])
  {
    if ps == [] then [] else [EscapeHtml(ps[0])] + EscapeEach(ps[1..])
  }

  lemma {:induction false} NewlinesEscaped(s: string)
    ensures NewlineRun(EscapeHtml(s)) == NewlineRun(s) && Ordinary(s[..NewlineRun(s)])
    decreases |s|
  {
    hide EscapeHtml;
    EscapedHead(s);
    if s != "" && s[0] == '\n' {
      NewlinesEscaped(s[1..]);
      assert s[..NewlineRun(s)] == [s[0]] + s[1..][..NewlineRun(s[1..])];
    }
  }

  /** Text without a newline stays at the head of the first paragraph. */
  lemma {:induction false} SplitAfterPlain(p: string, s: string)
    requires '\n' !in p
    ensures var ps := SplitParagraphs(s); SplitParagraphs(p + s) == [p + ps[0]] + ps[1..]
    decreases |p|
  {
    if p == "" {
      assert p + s == s;
      assert "" + SplitParagraphs(s)[0] == SplitParagraphs(s)[0];
    } else {
      assert (p + s)[0] == p[0] && (p + s)[1..] == p[1..] + s;
      SplitAfterPlain(p[1..], s);
      assert [p[0]] + (p[1..] + SplitParagraphs(s)[0]) == p + SplitParagraphs(s)[0];
    }
  }

  lemma {:induction false} SplitEscaped(s: string)
    ensures SplitParagraphs(EscapeHtml(s)) == EscapeEach(SplitParagraphs(s))
    decreases |s|
  {
    hide EscapeHtml, EscapeChar;
    EscapedHead(s);
    NewlinesEscaped(s);
    if s == "" {
      assert EscapeHtml("") == "";
    } else if NewlineRun(s) >= 2 {
      OrdinaryPrefix(s, NewlineRun(s));
      SplitEscaped(s[NewlineRun(s)..]);
      EscapedHead("");
    } else {
      SplitEscaped(s[1..]);
      SplitStep(s);
    }
  }

  lemma SplitStep(s: string)
    requires s != "" && NewlineRun(s) < 2
    requires SplitParagraphs(EscapeHtml(s[1..])) == EscapeEach(SplitParagraphs(s[1..]))
    ensures SplitParagraphs(EscapeHtml(s)) == EscapeEach(SplitParagraphs(s))
  {
    hide EscapeChar;
    var rest := SplitParagraphs(s[1..]);
    var e := EscapeEach(rest);
    NewlinesEscaped(s);
    EscapedChar(s[0]);
    EscapeSplits([s[0]], rest[0]);
    EscapeOne(s[0]);
    if s[0] != '\n' {
      EscapedNewline(s[0]);
      SplitAfterPlain(EscapeChar(s[0]), EscapeHtml(s[1..]));
    } else {
      assert EscapeHtml(s)[1..] == EscapeHtml(s[1..]);
    }
    assert SplitParagraphs(EscapeHtml(s)) == [EscapeHtml([s[0]] + rest[0])] + e[1..];
    assert forall i :: 1 <= i < |rest| ==> e[i] == EscapeHtml(rest[i]);
  }

  lemma EscapedNewline(c: char)
    requires c != '\n'
    ensures '\n' !in EscapeChar(c)
  {}

  lemma {:induction false} TrimStartEscaped(s: string)
    ensures TrimStart(EscapeHtml(s)) == EscapeHtml(TrimStart(s))
    decreases |s|
  {
    hide EscapeHtml;
    EscapedHead(s);
    if s != "" && IsSpace(s[0]) { TrimStartEscaped(s[1..]); }
  }

  lemma EscapedLast(s: string)
    requires s != ""
    ensures var e, n := EscapeHtml(s), |s| - 1;
            && e != ""
            && (IsSpace(e[|e| - 1]) <==> IsSpace(s[n]))
            && (IsSpace(s[n]) ==> e[..|e| - 1] == EscapeHtml(s[..n]))
  {
    hide EscapeHtml;
    var n := |s| - 1;
    assert s == s[..n] + [s[n]];
    EscapeSplits(s[..n], [s[n]]);
    EscapeOne(s[n]);
    EscapedEnd(s[n]);
  }

  lemma EscapedEnd(c: char)
    ensures var e := EscapeChar(c); e != "" && (IsSpace(e[|e| - 1]) <==> IsSpace(c)) && (IsSpace(c) ==> e == [c])
  {}

  lemma {:induction false} TrimEndEscaped(s: string)
    ensures TrimEnd(EscapeHtml(s)) == EscapeHtml(TrimEnd(s))
    decreases |s|
  {
    hide EscapeHtml;
    EscapedHead(s);
    if s != "" {
      EscapedLast(s);
      if IsSpace(s[|s| - 1]) { TrimEndEscaped(s[..|s| - 1]); }
    }
  }

  lemma {:induction false} KeptEscaped(ps: seq<string>)
    ensures Kept(EscapeEach(ps)) == EscapeEach(Kept(ps))
    decreases |ps|
  {
    hide EscapeHtml, TrimStart, TrimEnd;
    if ps != [] {
      KeptEscaped(ps[1..]);
      TrimStartEscaped(ps[0]);
      TrimEndEscaped(TrimStart(ps[0]));
      EscapedHead(Trim(ps[0]));
      assert EscapeEach(ps)[1..] == EscapeEach(ps[1..]);
      if Trim(ps[0]) != "" {
        assert Kept(ps)[1..] == Kept(ps[1..]);
        assert EscapeEach(Kept(ps))[1..] == EscapeEach(Kept(ps[1..]));
      }
    }
  }

  /**
   Rendering fails exactly when the plain substitution does, with the same parameter;
   otherwise the HTML part is the text's own paragraphs, each escaped.
   */
  lemma RenderIsEscapedText(source: string, params: Params)
    ensures var text := Substitute(source, params, Plainly);
            var r := Render(source, params);
            if text.Err? then r == Err(text.error)
            else r == Ok(Rendered(Trim(text.value), JoinParagraphs(EscapeEach(Kept(SplitParagraphs(text.value))))))
  {
    hide Substitute, EscapeHtml;
    EscapeCommutes(source, params);
    var text := Substitute(source, params, Plainly);
    if text.Ok? {
      SplitEscaped(text.value);
      KeptEscaped(SplitParagraphs(text.value));
    }
  }

  // --------------------------------------------------------------------------
  // Where the angle brackets are
  // --------------------------------------------------------------------------

  datatype Piece = Tag(name: string) | Char(c: char)

  function Flatten(ps: seq<Piece>): string {
    if ps == [] then "" else (if ps[0].Tag? then ps[0].name else [ps[0].c]) + Flatten(ps[1..])
  }

  /** The generated tags, and characters that are no bracket. */
  predicate Generated(p: Piece) {
    if p.Tag? then p.name in {"<p>", "</p>", "<br>"} else p.c !in {'<', '>'}
  }

  predicate AllGenerated(ps: seq<Piece>) { forall i :: 0 <= i < |ps| ==> Generated(ps[i]) }

  function Lines(p: string): seq<Piece> {
    if p == "" then [] else [if p[0] == '\n' then Tag("<br>") else Char(p[0])] + Lines(p[1..])
  }

  function ParagraphPieces(p: string): seq<Piece> { [Tag("<p>")] + Lines(p) + [Tag("</p>")] }

  function Pieces(ps: seq<string>): seq<Piece> {
    if ps == [] then []
    else ParagraphPieces(ps[0]) + if |ps| == 1 then [] else [Char('\n')] + Pieces(ps[1..])
  }

  lemma {:induction false} FlattenSplits(a: seq<Piece>, b: seq<Piece>)
    ensures Flatten(a + b) == Flatten(a) + Flatten(b)
    decreases |a|
  {
    if a == [] {
      assert a + b == b;
    } else {
      assert (a + b)[0] == a[0] && (a + b)[1..] == a[1..] + b;
      FlattenSplits(a[1..], b);
    }
  }

  lemma {:induction false} LinesFlatten(p: string)
    ensures Flatten(Lines(p)) == ReplaceAll(p, '\n', "<br>")
    ensures '<' !in p && '>' !in p ==> AllGenerated(Lines(p))
    decreases |p|
  {
    if p != "" { LinesFlatten(p[1..]); }
  }

  lemma FlattenOne(p: Piece)
    ensures Flatten([p]) == if p.Tag? then p.name else [p.c]
  {
    assert [p][1..] == [];
  }

  lemma ParagraphFlatten(p: string)
    requires '<' !in p && '>' !in p
    ensures Flatten(ParagraphPieces(p)) == Paragraph(p) && AllGenerated(ParagraphPieces(p))
  {
    hide Flatten, Lines;
    LinesFlatten(p);
    FlattenOne(Tag("<p>"));
    FlattenOne(Tag("</p>"));
    FlattenSplits([Tag("<p>")], Lines(p));
    FlattenSplits([Tag("<p>")] + Lines(p), [Tag("</p>")]);
  }

  lemma {:induction false} PiecesFlatten(ps: seq<string>)
    requires forall i :: 0 <= i < |ps| ==> '<' !in ps[i] && '>' !in ps[i]
    ensures Flatten(Pieces(ps)) == JoinParagraphs(ps) && AllGenerated(Pieces(ps))
    decreases |ps|
  {
    hide Flatten, Lines, ParagraphPieces, Paragraph;
    FlattenNone();
    if ps != [] {
      PiecesFlatten(ps[1..]);
      ParagraphFlatten(ps[0]);
      FlattenOne(Char('\n'));
      FlattenSplits([Char('\n')], Pieces(ps[1..]));
      var tail := if |ps| == 1 then [] else [Char('\n')] + Pieces(ps[1..]);
      FlattenSplits(ParagraphPieces(ps[0]), tail);
    }
  }

  lemma FlattenNone()
    ensures Flatten([]) == ""
  {}

  lemma {:induction false} EscapedHasNoBrackets(s: string)
    ensures '<' !in EscapeHtml(s) && '>' !in EscapeHtml(s)
    decreases |s|
  {
    if s != "" { EscapedHasNoBrackets(s[1..]); }
  }

  /** The angle brackets of the HTML part are those of the tags the renderer wrote. */
  lemma BracketsAreGenerated(source: string, params: Params)
    requires Render(source, params).Ok?
    ensures exists ps: seq<Piece> :: AllGenerated(ps) && Flatten(ps) == Render(source, params).value.html
  {
    hide Render, Substitute, EscapeHtml, Flatten;
    RenderIsEscapedText(source, params);
    var text := Substitute(source, params, Plainly).value;
    var ps := EscapeEach(Kept(SplitParagraphs(text)));
    forall i | 0 <= i < |ps| ensures '<' !in ps[i] && '>' !in ps[i] {
      EscapedHasNoBrackets(Kept(SplitParagraphs(text))[i]);
    }
    PiecesFlatten(ps);
  }
}
