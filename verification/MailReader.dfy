/**
 What a reader of a rendered mail sees: the placeholders of the template filled in, the
 text cut where blank lines are, and the HTML part, read as HTML, showing just those
 paragraphs.
 */
module MailReader {
  import opened Wrappers
  import opened Kinds
  import opened MailRender

  // --------------------------------------------------------------------------
  // Reading the HTML part
  // --------------------------------------------------------------------------

  datatype Page<T> = Unreadable | Read(value: T, rest: string)

  /** The character references of section 13.5 of the HTML standard that matter here, and the apostrophe's number. */
  function Reference(s: string): Page<char> {
    if "&amp;" <= s then Read('&', s[5..])
    else if "&lt;" <= s then Read('<', s[4..])
    else if "&gt;" <= s then Read('>', s[4..])
    else if "&quot;" <= s then Read('"', s[6..])
    else if "&#39;" <= s then Read('\'', s[5..])
    else Unreadable
  }

  /** One character of a paragraph: a line break, a reference, or itself. */
  function ReadChar(s: string): (r: Page<char>)
    ensures r.Read? ==> |r.rest| < |s|
  {
    if s == "" then Unreadable
    else if "<br>" <= s then Read('\n', s[4..])
    else if s[0] == '&' then Reference(s)
    else if s[0] == '<' || s[0] == '>' then Unreadable
    else Read(s[0], s[1..])
  }

  /** A paragraph whose opening tag has been read, up to its closing tag. */
  function ReadInline(s: string): (r: Page<string>)
    ensures r.Read? ==> |r.rest| < |s|
    decreases |s|
  {
    if "</p>" <= s then Read("", s[4..])
    else
      var c := ReadChar(s);
      if c.Unreadable? then Unreadable
      else
        var more := ReadInline(c.rest);
        if more.Unreadable? then Unreadable else Read([c.value] + more.value, more.rest)
  }

  /** Paragraphs on lines of their own. */
  function ReadPage(s: string): Option<seq<string>>
    decreases |s|
  {
    if s == "" then Some([])
    else if !("<p>" <= s) then None
    else
      var p := ReadInline(s[3..]);
      if p.Unreadable? then None
      else if p.rest == "" then Some([p.value])
      else if p.rest[0] != '\n' || |p.rest| == 1 then None
      else
        var more := ReadPage(p.rest[1..]);
        if more.None? then None else Some([p.value] + more.value)
  }

  lemma DiffersAt(w: string, s: string, i: nat)
    requires i < |w| && i < |s| && w[i] != s[i]
    ensures !(w <= s)
  {}

  lemma ReferenceIsRead(c: char, t: string)
    requires IsSpecial(c)
    ensures Reference(EscapeChar(c) + t) == Read(c, t)
    ensures (EscapeChar(c) + t)[0] == '&'
  {
    var s := EscapeChar(c) + t;
    var n := |EscapeChar(c)|;
    assert s[..n] == EscapeChar(c) && s[n..] == t;
    assert s[1] == EscapeChar(c)[1];
    if c != '&' { DiffersAt("&amp;", s, 1); }
    if c != '<' { DiffersAt("&lt;", s, 1); }
    if c != '>' { DiffersAt("&gt;", s, 1); }
    if c != '"' { DiffersAt("&quot;", s, 1); }
  }

  /** A line of a paragraph, as the renderer writes it. */
  function Written(p: string): string { ReplaceAll(EscapeHtml(p), '\n', "<br>") }

  lemma WrittenStep(p: string)
    requires p != ""
    ensures Written(p) == (if p[0] == '\n' then "<br>" else EscapeChar(p[0])) + Written(p[1..])
  {
    hide ReplaceAll, EscapeChar;
    ReplaceSplits(EscapeChar(p[0]), EscapeHtml(p[1..]), '\n', "<br>");
    WrittenChar(p[0]);
  }

  lemma WrittenChar(c: char)
    ensures ReplaceAll(EscapeChar(c), '\n', "<br>") == if c == '\n' then "<br>" else EscapeChar(c)
  {
    if c == '\n' {
      ReplaceOne(c, '\n', "<br>");
    } else {
      assert '\n' !in EscapeChar(c);
      ReplaceNone(EscapeChar(c), '\n', "<br>");
    }
  }

  lemma CharIsRead(c: char, t: string)
    ensures var s := (if c == '\n' then "<br>" else EscapeChar(c)) + t;
            ReadChar(s) == Read(c, t) && !("</p>" <= s)
  {
    hide Reference;
    var w := if c == '\n' then "<br>" else EscapeChar(c);
    var s := w + t;
    assert s[..|w|] == w && s[|w|..] == t;
    if c == '\n' {
      DiffersAt("</p>", s, 1);
    } else {
      if IsSpecial(c) { ReferenceIsRead(c, t); } else { EscapedChar(c); }
      DiffersAt("</p>", s, 0);
      DiffersAt("<br>", s, 0);
    }
  }

  lemma {:induction false} InlineIsRead(p: string, t: string)
    ensures ReadInline(Written(p) + "</p>" + t) == Read(p, t)
    decreases |p|
  {
    hide Written, ReadChar, EscapeChar;
    var s := Written(p) + "</p>" + t;
    if p == "" {
      NothingWritten();
      assert s == "</p>" + t && s[4..] == t;
    } else {
      WrittenStep(p);
      var rest := Written(p[1..]) + "</p>" + t;
      assert s == (if p[0] == '\n' then "<br>" else EscapeChar(p[0])) + rest;
      CharIsRead(p[0], rest);
      InlineIsRead(p[1..], t);
      assert [p[0]] + p[1..] == p;
    }
  }

  lemma NothingWritten()
    ensures Written("") == ""
  {}

  lemma ParagraphIsRead(p: string, t: string)
    ensures var s := Paragraph(EscapeHtml(p)) + t; "<p>" <= s && ReadInline(s[3..]) == Read(p, t)
  {
    hide ReadInline, ReplaceAll, EscapeHtml;
    var s := Paragraph(EscapeHtml(p)) + t;
    assert s == "<p>" + (Written(p) + "</p>" + t);
    assert s[3..] == Written(p) + "</p>" + t;
    InlineIsRead(p, t);
  }

  lemma {:induction false} PageIsRead(ps: seq<string>)
    ensures ReadPage(JoinParagraphs(EscapeEach(ps))) == Some(ps)
    decreases |ps|
  {
    hide ReadInline, Paragraph, EscapeHtml, ReadPage, JoinParagraphs, EscapeEach;
    if ps == [] {
      NoParagraphs();
    } else if |ps| == 1 {
      LastParagraph(ps[0]);
      assert ps == [ps[0]];
    } else {
      PageIsRead(ps[1..]);
      PageStarts(ps[1..]);
      OneParagraph(ps);
      assert [ps[0]] + ps[1..] == ps;
    }
  }

  lemma NoParagraphs()
    ensures ReadPage(JoinParagraphs(EscapeEach([]))) == Some([])
  {}

  lemma LastParagraph(p: string)
    ensures ReadPage(JoinParagraphs(EscapeEach([p]))) == Some([p])
  {
    hide ReadInline, Paragraph, EscapeHtml;
    ParagraphIsRead(p, "");
    assert Paragraph(EscapeHtml(p)) + "" == Paragraph(EscapeHtml(p));
    assert EscapeEach([p]) == [EscapeHtml(p)];
  }

  lemma PageStep(s: string, p: string, rest: string)
    requires "<p>" <= s && ReadInline(s[3..]) == Read(p, "\n" + rest) && rest != ""
    ensures ReadPage(s) == if ReadPage(rest).None? then None else Some([p] + ReadPage(rest).value)
  {
    hide ReadInline;
    assert ("\n" + rest)[1..] == rest;
  }

  lemma JoinStep(ps: seq<string>)
    requires |ps| > 1
    ensures JoinParagraphs(EscapeEach(ps)) == Paragraph(EscapeHtml(ps[0])) + ("\n" + JoinParagraphs(EscapeEach(ps[1..])))
  {
    hide Paragraph, EscapeHtml;
    assert EscapeEach(ps)[1..] == EscapeEach(ps[1..]);
  }

  lemma OneParagraph(ps: seq<string>)
    requires |ps| > 1
    requires JoinParagraphs(EscapeEach(ps[1..])) != ""
    ensures var more := ReadPage(JoinParagraphs(EscapeEach(ps[1..])));
            ReadPage(JoinParagraphs(EscapeEach(ps))) == if more.None? then None else Some([ps[0]] + more.value)
  {
    hide ReadInline, Paragraph, EscapeHtml, ReadPage, JoinParagraphs, EscapeEach;
    var rest := JoinParagraphs(EscapeEach(ps[1..]));
    ParagraphIsRead(ps[0], "\n" + rest);
    JoinStep(ps);
    PageStep(JoinParagraphs(EscapeEach(ps)), ps[0], rest);
  }

  lemma PageStarts(ps: seq<string>)
    requires ps != []
    ensures JoinParagraphs(EscapeEach(ps)) != ""
  {}

  /** Read as HTML, the HTML part shows the paragraphs of the text, whatever markup the values hold. */
  lemma HtmlShowsTheText(source: string, params: Params)
    requires Render(source, params).Ok?
    ensures Substitute(source, params, Plainly).Ok?
    ensures ReadPage(Render(source, params).value.html) ==
            Some(Kept(SplitParagraphs(Substitute(source, params, Plainly).value)))
  {
    hide Substitute, Render, EscapeHtml, JoinParagraphs, ReadPage;
    RenderIsEscapedText(source, params);
    RenderFails(source, params);
    PageIsRead(Kept(SplitParagraphs(Substitute(source, params, Plainly).value)));
  }

  lemma RenderFails(source: string, params: Params)
    ensures Render(source, params).Ok? ==> Substitute(source, params, Plainly).Ok?
  {
    hide Substitute, EscapeHtml;
  }

  // --------------------------------------------------------------------------
  // Where the text is cut
  // --------------------------------------------------------------------------

  function Newlines(n: nat): (s: string)
    ensures |s| == n && forall i :: 0 <= i < n ==> s[i] == '\n'
  {
    seq(n, i => '\n')
  }

  /** Pieces with runs of newlines in between. */
  function Woven(ps: seq<string>, runs: seq<nat>): string
    requires |ps| == |runs| + 1
  {
    if runs == [] then ps[0] else ps[0] + Newlines(runs[0]) + Woven(ps[1..], runs[1..])
  }

  /** No blank line inside. */
  predicate Solid(p: string) { forall i :: 0 <= i < |p| - 1 ==> !(p[i] == '\n' && p[i + 1] == '\n') }

  /** Cut exactly at the blank lines: whole runs of two newlines or more, and nowhere else. */
  ghost predicate CutAtBlankLines(s: string, ps: seq<string>, runs: seq<nat>) {
    && |ps| == |runs| + 1 && s == Woven(ps, runs)
    && (forall i :: 0 <= i < |runs| ==> runs[i] >= 2)
    && (forall i :: 0 <= i < |ps| ==> Solid(ps[i]))
    && (forall i :: 0 < i < |ps| && ps[i] != "" ==> ps[i][0] != '\n')
    && (forall i :: 0 <= i < |ps| - 1 && ps[i] != "" ==> ps[i][|ps[i]| - 1] != '\n')
  }

  lemma {:induction false} RunIsNewlines(s: string)
    ensures s[..NewlineRun(s)] == Newlines(NewlineRun(s))
    ensures NewlineRun(s) < |s| ==> s[NewlineRun(s)] != '\n'
    ensures NewlineRun(s) > 0 <==> s != "" && s[0] == '\n'
    decreases |s|
  {
    if s != "" && s[0] == '\n' {
      RunIsNewlines(s[1..]);
      var n := NewlineRun(s[1..]);
      assert s[..n + 1] == [s[0]] + s[1..][..n];
      assert n < |s[1..]| ==> s[1..][n] == s[n + 1];
    }
  }

  lemma CutFirst(s: string, ps: seq<string>)
    requires ps == SplitParagraphs(s)
    ensures ps[0] != "" ==> s != "" && ps[0][0] == s[0]
    ensures s != "" && s[0] != '\n' ==> ps[0] != ""
  {
    RunIsNewlines(s);
  }

  lemma {:induction false} SplitIsCut(s: string) returns (runs: seq<nat>)
    ensures CutAtBlankLines(s, SplitParagraphs(s), runs)
    decreases |s|
  {
    hide CutAtBlankLines;
    var ps, n := SplitParagraphs(s), NewlineRun(s);
    RunIsNewlines(s);
    if s == "" {
      runs := [];
      EmptyIsCut();
    } else if n >= 2 {
      var rest := SplitIsCut(s[n..]);
      runs := [n] + rest;
      CutFirst(s[n..], SplitParagraphs(s[n..]));
      BlankIsCut(s, n, SplitParagraphs(s[n..]), rest);
    } else {
      runs := SplitIsCut(s[1..]);
      var tail := SplitParagraphs(s[1..]);
      CutFirst(s[1..], tail);
      if n == 1 { assert |s| > 1 ==> s[1] != '\n'; }
      MoreIsCut(s, tail, runs);
    }
  }

  lemma EmptyIsCut()
    ensures CutAtBlankLines("", [""], [])
  {}

  lemma BlankIsCut(s: string, n: nat, ps: seq<string>, runs: seq<nat>)
    requires 2 <= n <= |s| && s[..n] == Newlines(n) && CutAtBlankLines(s[n..], ps, runs)
    requires ps[0] != "" ==> ps[0][0] != '\n'
    ensures CutAtBlankLines(s, [""] + ps, [n] + runs)
  {
    var all, more := [""] + ps, [n] + runs;
    assert all[1..] == ps && more[1..] == runs;
    assert s == "" + Newlines(n) + s[n..];
    assert forall i :: 0 < i < |all| ==> all[i] == ps[i - 1];
  }

  lemma MoreIsCut(s: string, ps: seq<string>, runs: seq<nat>)
    requires s != "" && CutAtBlankLines(s[1..], ps, runs)
    requires s[0] == '\n' && ps[0] != "" ==> ps[0][0] != '\n'
    requires s[0] == '\n' && ps[0] == "" ==> |ps| == 1
    ensures CutAtBlankLines(s, [[s[0]] + ps[0]] + ps[1..], runs)
  {
    var first := [s[0]] + ps[0];
    var all := [first] + ps[1..];
    assert all[1..] == ps[1..];
    assert s == [s[0]] + s[1..];
    if runs != [] {
      assert [s[0]] + (ps[0] + Newlines(runs[0]) + Woven(ps[1..], runs[1..])) ==
             first + Newlines(runs[0]) + Woven(ps[1..], runs[1..]);
    }
    forall i | 0 <= i < |first| - 1 ensures !(first[i] == '\n' && first[i + 1] == '\n') {
      if i > 0 { assert first[i] == ps[0][i - 1] && first[i + 1] == ps[0][i]; } else { assert first[1] == ps[0][0]; }
    }
    assert Solid(first);
    assert ps[0] != "" ==> first[|first| - 1] == ps[0][|ps[0]| - 1];
    assert forall i :: 0 < i < |all| ==> all[i] == ps[i];
  }

  /** `kept` are the pieces at these places, trimmed. */
  ghost predicate TrimmedAt(ps: seq<string>, kept: seq<string>, at: seq<nat>) {
    |at| == |kept| && forall i :: 0 <= i < |at| ==> at[i] < |ps| && kept[i] == Trim(ps[at[i]])
  }

  ghost predicate Climbing(at: seq<nat>) { forall i, j :: 0 <= i < j < |at| ==> at[i] < at[j] }

  /** The places where there is something to read. */
  ghost predicate Readable(ps: seq<string>, at: seq<nat>) { forall k: nat :: k in at <==> k < |ps| && !AllSpaces(ps[k]) }

  /** Which pieces are kept, in order: those with something to read, trimmed. */
  ghost predicate KeptAt(ps: seq<string>, kept: seq<string>, at: seq<nat>) {
    TrimmedAt(ps, kept, at) && Climbing(at) && Readable(ps, at)
  }

  function Later(at: seq<nat>): (r: seq<nat>)
    ensures |r| == |at| && forall i :: 0 <= i < |at| ==> r[i] == at[i] + 1
  {
    seq(|at|, i requires 0 <= i < |at| => at[i] + 1)
  }

  lemma InLater(at: seq<nat>, k: nat)
    ensures k in Later(at) <==> k > 0 && k - 1 in at
  {
    if k in Later(at) { var i :| 0 <= i < |at| && Later(at)[i] == k; assert at[i] == k - 1; }
    if k > 0 && k - 1 in at { var i :| 0 <= i < |at| && at[i] == k - 1; assert Later(at)[i] == k; }
  }

  /** The first piece's own place, if it is kept, before all the others. */
  function Places(ps: seq<string>, rest: seq<nat>): seq<nat>
    requires ps != []
  {
    (if Trim(ps[0]) == "" then [] else [0]) + Later(rest)
  }

  lemma MoreReadable(ps: seq<string>, rest: seq<nat>)
    requires ps != [] && Readable(ps[1..], rest) && (AllSpaces(ps[0]) <==> Trim(ps[0]) == "")
    ensures Readable(ps, Places(ps, rest))
  {
    hide Trim, AllSpaces, Later;
    forall k: nat ensures k in Places(ps, rest) <==> k < |ps| && !AllSpaces(ps[k]) {
      InLater(rest, k);
      if k > 0 && k < |ps| { assert ps[1..][k - 1] == ps[k]; }
    }
  }

  lemma MoreClimbing(ps: seq<string>, rest: seq<nat>)
    requires ps != [] && Climbing(rest)
    ensures Climbing(Places(ps, rest))
  {
    hide Trim;
  }

  lemma KeptStep(ps: seq<string>)
    requires ps != []
    ensures Kept(ps) == (if Trim(ps[0]) == "" then [] else [Trim(ps[0])]) + Kept(ps[1..])
  {
    hide Trim;
  }

  lemma MoreTrimmed(ps: seq<string>, rest: seq<nat>)
    requires ps != [] && TrimmedAt(ps[1..], Kept(ps[1..]), rest)
    ensures TrimmedAt(ps, Kept(ps), Places(ps, rest))
  {
    hide Trim, Kept;
    var at, skipped := Places(ps, rest), if Trim(ps[0]) == "" then 0 else 1;
    KeptStep(ps);
    forall i | 0 <= i < |at| ensures at[i] < |ps| && Kept(ps)[i] == Trim(ps[at[i]]) {
      if i >= skipped {
        var j := i - skipped;
        assert at[i] == Later(rest)[j] == rest[j] + 1;
        assert ps[1..][rest[j]] == ps[at[i]] && Kept(ps)[i] == Kept(ps[1..])[j];
      }
    }
  }

  lemma {:induction false} KeptIsReadable(ps: seq<string>) returns (at: seq<nat>)
    ensures KeptAt(ps, Kept(ps), at)
    decreases |ps|
  {
    hide TrimmedAt, Climbing, Readable, Places, Kept, AllSpaces, Trim;
    if ps == [] {
      at := [];
      NothingKept();
    } else {
      var rest := KeptIsReadable(ps[1..]);
      BlankIsEmpty(ps[0]);
      at := Places(ps, rest);
      MoreReadable(ps, rest);
      MoreClimbing(ps, rest);
      MoreTrimmed(ps, rest);
    }
  }

  lemma NothingKept()
    ensures KeptAt([], Kept([]), [])
  {}

  // --------------------------------------------------------------------------
  // What a placeholder is
  // --------------------------------------------------------------------------

  /** A template taken apart: words, and braces around a key with white space either side of it. */
  datatype Part = Words(text: string) | Slot(before: string, key: string, after: string)

  predicate Proper(p: Part) {
    match p
    case Words(text) => '{' !in text
    case Slot(before, key, after) =>
      AllSpaces(before) && AllSpaces(after) && key != "" && forall i :: 0 <= i < |key| ==> IsKeyChar(key[i])
  }

  function Spelled(p: Part): string {
    match p
    case Words(text) => text
    case Slot(before, key, after) => "{{" + before + key + after + "}}"
  }

  function Template(ps: seq<Part>): string {
    if ps == [] then "" else Spelled(ps[0]) + Template(ps[1..])
  }

  /** The words as they are and each key's value in its place; the first key without one is the failure. */
  function Filled(ps: seq<Part>, params: Params): Result<string, MissingParam> {
    if ps == [] then Ok("")
    else match ps[0]
         case Words(text) => Prefixed(text, Filled(ps[1..], params))
         case Slot(_, key, _) =>
           if key !in params then Err(MissingParam(key)) else Prefixed(params[key], Filled(ps[1..], params))
  }

  lemma {:induction false} SpacesOf(a: string, t: string)
    requires AllSpaces(a) && (t == "" || !IsSpace(t[0]))
    ensures Spaces(a + t) == |a|
    decreases |a|
  {
    if a == "" {
      assert a + t == t;
    } else {
      assert (a + t)[0] == a[0] && (a + t)[1..] == a[1..] + t;
      SpacesOf(a[1..], t);
    }
  }

  lemma {:induction false} KeyCharsOf(a: string, t: string)
    requires (forall i :: 0 <= i < |a| ==> IsKeyChar(a[i])) && (t == "" || !IsKeyChar(t[0]))
    ensures KeyChars(a + t) == |a|
    decreases |a|
  {
    if a == "" {
      assert a + t == t;
    } else {
      assert (a + t)[0] == a[0] && (a + t)[1..] == a[1..] + t;
      KeyCharsOf(a[1..], t);
    }
  }

  lemma MatchIs(s: string, a: nat, b: nat, c: nat)
    requires Doubles(s, '{') && a == 2 + Spaces(s[2..]) && b == a + KeyChars(s[a..]) && c == b + Spaces(s[b..])
    requires a < b && Doubles(s[c..], '}')
    ensures MatchHere(s) == Some(Match(c + 2, s[a..b]))
  {
    hide Spaces, KeyChars, Doubles;
  }

  /** How far each part of a slot's match reaches. */
  lemma SlotRuns(p: Part, t: string)
    requires p.Slot? && Proper(p)
    ensures var u := "}}" + t;
            && Spaces(p.before + (p.key + (p.after + u))) == |p.before|
            && KeyChars(p.key + (p.after + u)) == |p.key|
            && Spaces(p.after + u) == |p.after|
  {
    hide Spaces, KeyChars, IsSpace, AllSpaces, IsKeyChar;
    var u := "}}" + t;
    KeyIsNoSpace(p.key[0]);
    SpacesOf(p.before, p.key + (p.after + u));
    AfterKey(p.after, u);
    KeyCharsOf(p.key, p.after + u);
    SpacesOf(p.after, u);
  }

  lemma SlotMatches(p: Part, t: string)
    requires p.Slot? && Proper(p)
    ensures MatchHere(Spelled(p) + t) == Some(Match(|Spelled(p)|, p.key))
  {
    hide Spaces, KeyChars, AllSpaces, MatchHere, IsKeyChar, Doubles;
    var a, b := 2 + |p.before|, 2 + |p.before| + |p.key|;
    SlotPieces(p, t);
    SlotRuns(p, t);
    MatchIs(Spelled(p) + t, a, b, b + |p.after|);
  }

  lemma Regrouped(a: string, b: string, c: string)
    ensures a + b + c == a + (b + c)
  {}

  lemma Taken(a: string, b: string)
    ensures (a + b)[..|a|] == a && (a + b)[|a|..] == b
  {}

  lemma TakenFurther(s: string, n: nat, a: string, b: string)
    requires n <= |s| && s[n..] == a + b
    ensures n + |a| <= |s| && s[n + |a|..] == b && s[n..n + |a|] == a
  {
    Taken(a, b);
    assert s[n..n + |a|] == s[n..][..|a|] && s[n + |a|..] == s[n..][|a|..];
  }

  lemma SlotNested(p: Part, t: string)
    requires p.Slot?
    ensures Spelled(p) + t == "{{" + (p.before + (p.key + (p.after + ("}}" + t))))
  {
    var k, l := "{{" + p.before, "{{" + p.before + p.key;
    Regrouped(l + p.after, "}}", t);
    Regrouped(l, p.after, "}}" + t);
    Regrouped(k, p.key, p.after + ("}}" + t));
    Regrouped("{{", p.before, p.key + (p.after + ("}}" + t)));
  }

  lemma BracesDouble(x: string)
    ensures Doubles("{{" + x, '{') && Doubles("}}" + x, '}')
  {}

  lemma SlotPieces(p: Part, t: string)
    requires p.Slot?
    ensures var s, u := Spelled(p) + t, "}}" + t;
            var a, b := 2 + |p.before|, 2 + |p.before| + |p.key|;
            && |s| >= b + |p.after|
            && Doubles(s, '{') && s[2..] == p.before + (p.key + (p.after + u))
            && s[a..] == p.key + (p.after + u) && s[b..] == p.after + u && s[b + |p.after|..] == u && Doubles(u, '}')
            && s[a..b] == p.key
  {
    hide Spelled, Doubles;
    var s, u := Spelled(p) + t, "}}" + t;
    var v := p.after + u;
    var w := p.key + v;
    var x := p.before + w;
    SlotNested(p, t);
    BracesDouble(x);
    BracesDouble(t);
    Taken("{{", x);
    TakenFurther(s, 2, p.before, w);
    TakenFurther(s, 2 + |p.before|, p.key, v);
    TakenFurther(s, 2 + |p.before| + |p.key|, p.after, u);
  }

  lemma KeyIsNoSpace(c: char)
    ensures IsKeyChar(c) ==> !IsSpace(c)
    ensures IsSpace(c) || c == '}' ==> !IsKeyChar(c)
    ensures !IsSpace('}')
  {}

  /** What follows a key cannot extend it. */
  lemma AfterKey(after: string, u: string)
    requires AllSpaces(after) && u != "" && u[0] == '}'
    ensures !IsKeyChar((after + u)[0]) && !IsSpace(u[0])
  {
    hide IsSpace, IsKeyChar;
    KeyIsNoSpace((after + u)[0]);
    KeyIsNoSpace(u[0]);
  }

  lemma SlotIsFilled(p: Part, t: string, params: Params)
    requires p.Slot? && Proper(p)
    ensures Substitute(Spelled(p) + t, params, Plainly) ==
            if p.key !in params then Err(MissingParam(p.key)) else Prefixed(params[p.key], Substitute(t, params, Plainly))
  {
    hide MatchHere, Proper;
    SlotMatches(p, t);
    assert (Spelled(p) + t)[|Spelled(p)|..] == t;
  }

  /** Every template made of words and placeholders renders to the words with the values in place. */
  lemma {:induction false} TemplateIsFilled(ps: seq<Part>, params: Params)
    requires forall i :: 0 <= i < |ps| ==> Proper(ps[i])
    ensures Substitute(Template(ps), params, Plainly) == Filled(ps, params)
    decreases |ps|
  {
    hide Spelled, Substitute, Prefixed;
    if ps == [] {
      NothingToFill(params);
    } else {
      TemplateIsFilled(ps[1..], params);
      match ps[0]
      case Words(text) =>
        assert Spelled(ps[0]) == text by { WordsSpelled(text); }
        NoBraceIsCopied(text, Template(ps[1..]), params, Plainly);
      case Slot(_, _, _) => SlotIsFilled(ps[0], Template(ps[1..]), params);
    }
  }

  lemma WordsSpelled(text: string)
    ensures Spelled(Words(text)) == text
  {}

  lemma NothingToFill(params: Params)
    ensures Substitute("", params, Plainly) == Ok("")
  {}

  /** Text in which no two braces open side by side is left as it is. */
  lemma {:induction false} NoPlaceholderIsCopied(s: string, params: Params, t: Transform)
    requires forall i :: 0 <= i < |s| - 1 ==> !(s[i] == '{' && s[i + 1] == '{')
    ensures Substitute(s, params, t) == Ok(s)
    decreases |s|
  {
    if s != "" {
      NoBracesNoMatch(s);
      CopyHere(s, params, t);
      NoPlaceholderIsCopied(s[1..], params, t);
      assert [s[0]] + s[1..] == s;
    }
  }
}
