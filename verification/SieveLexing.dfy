/** How the lexer reads the pieces the compiler emits, each followed by any text. */
module SieveLexing {
  import opened Text
  import opened Sieve
  import opened SieveGrammar
  import opened MailRules

  predicate LowerWord(w: string) {
    w != "" && forall i :: 0 <= i < |w| ==> 'a' <= w[i] <= 'z'
  }

  predicate WordEnds(rest: string) {
    rest == "" || !IdentChar(rest[0])
  }

  lemma LexBlank(c: char, rest: string)
    requires Blank(c)
    ensures Lex([c] + rest) == Lex(rest)
  {
    assert ([c] + rest)[1..] == rest;
  }

  lemma LexPunctuation(c: char, rest: string)
    requires Punctuation(c) != Bad
    ensures Lex([c] + rest) == [Punctuation(c)] + Lex(rest)
  {
    var s := [c] + rest;
    assert s[0] == c && s[1..] == rest;
    assert !Alpha(c) && !Digit(c) && !Blank(c) && c != '#' && c != '"' && c != ':' && c != '/';
    NoText(s);
  }

  lemma TextBegins(s: string)
    requires |s| >= 4 && ToLower(s[..4]) == "text"
    ensures Alpha(s[0])
  {
    assert ToLower(s[..4])[0] == 't';
  }

  /** Text that does not begin with a letter opens no multi-line string. */
  lemma NoText(s: string)
    requires s != "" && !Alpha(s[0])
    ensures TextOpens(s).None?
  {
    if |s| >= 5 && ToLower(s[..4]) == "text" {
      TextBegins(s);
    }
  }

  lemma {:induction false} IdentLengthOfWord(w: string, rest: string)
    requires forall i :: 0 <= i < |w| ==> IdentChar(w[i])
    requires WordEnds(rest)
    ensures IdentLength(w + rest) == |w|
  {
    if w == "" {
      assert w + rest == rest;
    } else {
      assert (w + rest)[1..] == w[1..] + rest;
      IdentLengthOfWord(w[1..], rest);
    }
  }

  lemma WordIsText(w: string, rest: string)
    requires LowerWord(w) && WordEnds(rest)
    requires |w + rest| >= 5 && ToLower((w + rest)[..4]) == "text" && (w + rest)[4] == ':'
    ensures w == "text"
  {
    var s := w + rest;
    var low := ToLower(s[..4]);
    assert low[0] == 't' && low[1] == 'e' && low[2] == 'x' && low[3] == 't';
    assert IdentChar(s[0]) && IdentChar(s[1]) && IdentChar(s[2]) && IdentChar(s[3]) && !IdentChar(s[4]);
    assert |w| == 4;
    assert s[..4] == w && ToLower(w) == w;
  }

  /** A word other than `text` opens no multi-line string. */
  lemma NoTextWord(w: string, rest: string)
    requires LowerWord(w) && WordEnds(rest) && w != "text"
    ensures TextOpens(w + rest).None?
  {
    var s := w + rest;
    if |s| >= 5 && ToLower(s[..4]) == "text" && s[4] == ':' {
      WordIsText(w, rest);
    }
  }

  lemma LexWord(w: string, rest: string)
    requires LowerWord(w) && WordEnds(rest) && w != "text"
    ensures Lex(w + rest) == [Ident(w)] + Lex(rest)
  {
    IdentLengthOfWord(w, rest);
    NoTextWord(w, rest);
    var s := w + rest;
    assert s[..|w|] == w;
    assert s[|w|..] == rest;
    assert ToLower(w) == w;
    assert s[0] == w[0];
    hide IdentLength, TextOpens;
    assert FirstToken(s) == (Ident(w), |w|);
  }

  lemma LexTag(w: string, rest: string)
    requires LowerWord(w) && WordEnds(rest)
    ensures Lex(":" + w + rest) == [Tag(w)] + Lex(rest)
  {
    var s := ":" + w + rest;
    IdentLengthOfWord(w, rest);
    NoText(s);
    assert s[1..] == w + rest;
    assert s[1..|w| + 1] == w;
    assert s[|w| + 1..] == rest;
    assert ToLower(w) == w;
    assert s[1] == w[0];
    hide IdentLength, TextOpens;
    assert FirstToken(s) == (Tag(w), |w| + 1);
  }

  lemma LexQuotedPlain(c: char, tail: string, v: string, rest: string)
    requires c != '"' && c != '\\' && LexQuoted(tail) == Closed(v, rest)
    ensures LexQuoted([c] + tail) == Closed([c] + v, rest)
  {
    assert ([c] + tail)[1..] == tail;
  }

  lemma LexQuotedLiteral(c: char, tail: string, v: string, rest: string)
    requires LexQuoted(tail) == Closed(v, rest)
    ensures LexQuoted(['\\', c] + tail) == Closed([c] + v, rest)
  {
    assert (['\\', c] + tail)[2..] == tail;
  }

  lemma LexQuotedEnd(rest: string)
    ensures LexQuoted("\"" + rest) == Closed("", rest)
  {
    assert ("\"" + rest)[1..] == rest;
  }

  lemma {:induction false} LexQuotedEscape(v: string, rest: string)
    ensures LexQuoted(SieveEscape(v) + ("\"" + rest)) == Closed(v, rest)
  {
    hide LexQuoted;
    var close := "\"" + rest;
    if v == "" {
      LexQuotedEnd(rest);
      assert SieveEscape(v) + close == close;
    } else {
      var tail := SieveEscape(v[1..]) + close;
      LexQuotedEscape(v[1..], rest);
      assert v == [v[0]] + v[1..];
      if v[0] == '\\' || v[0] == '"' {
        LexQuotedLiteral(v[0], tail, v[1..], rest);
        assert SieveEscape(v) + close == ['\\', v[0]] + tail;
      } else {
        LexQuotedPlain(v[0], tail, v[1..], rest);
        assert SieveEscape(v) + close == [v[0]] + tail;
      }
    }
  }

  lemma LexString(s: string, v: string, rest: string)
    requires LexQuoted(s) == Closed(v, rest)
    ensures Lex("\"" + s) == [Str(v)] + Lex(rest)
  {
    assert ("\"" + s)[1..] == s;
    hide LexQuoted;
  }

  /** Escaping and lexing are inverse: any string comes back as one token. */
  lemma LexQuote(v: string, rest: string)
    ensures Lex(Quote(v) + rest) == [Str(v)] + Lex(rest)
  {
    hide Lex, SieveEscape, LexQuoted;
    LexQuotedEscape(v, rest);
    LexString(SieveEscape(v) + ("\"" + rest), v, rest);
    assert Quote(v) + rest == "\"" + (SieveEscape(v) + ("\"" + rest));
  }

  lemma {:induction false} EscapePlain(v: string)
    requires forall i :: 0 <= i < |v| ==> v[i] != '\\' && v[i] != '"'
    ensures SieveEscape(v) == v
  {
    if v != "" {
      EscapePlain(v[1..]);
    }
  }

  lemma LexPlainString(v: string, rest: string)
    requires forall i :: 0 <= i < |v| ==> v[i] != '\\' && v[i] != '"'
    ensures Lex("\"" + v + "\"" + rest) == [Str(v)] + Lex(rest)
  {
    EscapePlain(v);
    LexQuote(v, rest);
  }

  lemma {:induction false} AfterLineSkips(line: string, rest: string)
    requires '\n' !in line
    ensures AfterLine(line + ("\n" + rest)) == rest
  {
    if line == "" {
      assert line + ("\n" + rest) == "\n" + rest;
    } else {
      assert (line + ("\n" + rest))[1..] == line[1..] + ("\n" + rest);
      AfterLineSkips(line[1..], rest);
    }
  }

  /** A comment line is invisible. */
  lemma LexComment(line: string, rest: string)
    requires '\n' !in line
    ensures Lex("#" + line + "\n" + rest) == Lex(rest)
  {
    var s := "#" + line + "\n" + rest;
    assert s[1..] == line + ("\n" + rest);
    AfterLineSkips(line, rest);
  }

  lemma {:induction false} AfterLastLine(line: string)
    requires '\n' !in line
    ensures AfterLine(line) == ""
  {
    if line != "" {
      AfterLastLine(line[1..]);
    }
  }

  lemma LexLastComment(line: string)
    requires '\n' !in line
    ensures Lex("#" + line) == []
  {
    assert ("#" + line)[1..] == line;
    AfterLastLine(line);
  }

  // ----- lines that the writer did not mean to be read -----

  /** White space and comments only. */
  predicate Silent(s: string)
    decreases |s|
  {
    if s == "" then true
    else if Blank(s[0]) then Silent(s[1..])
    else if s[0] == '#' then Silent(AfterLine(s[1..]))
    else CommentOpens(s) && AfterComment(s[2..]).Some? && Silent(AfterComment(s[2..]).value)
  }

  /** Whole lines. */
  predicate Lines(t: string) {
    t == "" || t[|t| - 1] == '\n'
  }

  /** Every quotation mark stands behind a backslash, as in escaped text. */
  predicate Guarded(s: string) {
    forall i :: 0 <= i < |s| && s[i] == '"' ==> i > 0 && s[i - 1] == '\\'
  }

  lemma GuardedSuffix(s: string, k: nat)
    requires Guarded(s) && k <= |s| && (k == 0 || k == |s| || s[k - 1] != '\\')
    ensures Guarded(s[k..])
  {
    var t := s[k..];
    forall i | 0 <= i < |t| && t[i] == '"' ensures i > 0 && t[i - 1] == '\\' {
      assert t[i] == s[k + i];
    }
  }

  lemma {:induction false} EscapeGuarded(v: string)
    ensures Guarded(SieveEscape(v))
  {
    if v != "" {
      EscapeGuarded(v[1..]);
      var tail := SieveEscape(v[1..]);
      var head := if v[0] == '\\' || v[0] == '"' then ['\\', v[0]] else [v[0]];
      assert SieveEscape(v) == head + tail;
      hide SieveEscape;
      forall i | 0 <= i < |head + tail| && (head + tail)[i] == '"' ensures i > 0 && (head + tail)[i - 1] == '\\' {
        if i >= |head| {
          assert tail[i - |head|] == '"';
        }
      }
    }
  }

  /** A suffix of the text, cut behind a character that is no backslash. */
  predicate Cut(t: string, k: nat) {
    0 < k <= |t| && t[k - 1] != '\\'
  }

  lemma CutSuffix(t: string, k: nat)
    requires Lines(t) && Guarded(t) && Cut(t, k)
    ensures Lines(t[k..]) && Guarded(t[k..])
  {
    GuardedSuffix(t, k);
  }

  lemma CutMore(t: string, i: nat, k: nat)
    requires i <= |t| && Cut(t[i..], k)
    ensures Cut(t, i + k) && t[i..][k..] == t[i + k..]
  {
  }

  lemma HeadOff(t: string, y: string)
    requires t != ""
    ensures (t + y)[0] == t[0] && (t + y)[1..] == t[1..] + y
  {
  }

  lemma {:induction false} AfterLineCut(t: string, y: string) returns (k: nat)
    requires Lines(t) && t != ""
    ensures Cut(t, k) && AfterLine(t) == t[k..] && AfterLine(t + y) == t[k..] + y
  {
    HeadOff(t, y);
    if t[0] == '\n' {
      k := 1;
    } else {
      var j := AfterLineCut(t[1..], y);
      CutMore(t, 1, j);
      k := j + 1;
    }
  }

  lemma {:induction false} AfterCommentCut(t: string, y: string) returns (k: nat)
    requires AfterComment(t).Some?
    ensures Cut(t, k) && AfterComment(t) == Some(t[k..]) && AfterComment(t + y) == Some(t[k..] + y)
  {
    HeadOff(t, y);
    if t[0] == '*' && t[1] == '/' {
      k := 2;
      assert (t + y)[2..] == t[2..] + y;
    } else {
      var j := AfterCommentCut(t[1..], y);
      CutMore(t, 1, j);
      k := j + 1;
    }
  }

  /** A comment that is open at the end of a line stays open over text without an end of comment. */
  lemma {:induction false} CommentStaysOpen(t: string, y: string)
    requires Lines(t) && AfterComment(t).None? && AfterComment(y).None?
    ensures AfterComment(t + y).None?
  {
    if t == "" {
      assert t + y == y;
    } else {
      HeadOff(t, y);
      assert |t| == 1 ==> t[0] == '\n';
      CommentStaysOpen(t[1..], y);
    }
  }

  lemma DotLineCut(t: string, y: string)
    requires Lines(t) && t != ""
    ensures DotLine(t + y) == DotLine(t) && (DotLine(t) > 0 ==> Cut(t, DotLine(t)))
  {
  }

  /** One line of a multi-line string and the next. */
  lemma LexLinesStep(s: string, k: nat)
    requires '\n' in s && DotLine(s) == 0 && k <= |s| && AfterLine(s) == s[k..]
    ensures var r := LexLines(s[k..]);
      LexLines(s) == if r.Closed? then Closed(Unstuffed(s[..k]) + r.value, r.rest) else Unclosed
  {
    hide DotLine, Unstuffed;
  }

  lemma LexLinesEnd(s: string)
    requires '\n' in s && DotLine(s) > 0
    ensures LexLines(s) == Closed("", s[DotLine(s)..])
  {
    hide DotLine;
  }

  lemma HasBreak(t: string, y: string)
    requires Lines(t) && t != ""
    ensures '\n' in t && '\n' in t + y
  {
    assert t[|t| - 1] == '\n' == (t + y)[|t| - 1];
  }

  lemma CutParts(t: string, y: string, k: nat)
    requires Cut(t, k) && Lines(t)
    ensures 0 < k <= |t| && (t + y)[k..] == t[k..] + y && (t + y)[..k] == t[..k] && Lines(t[k..])
  {
  }

  lemma {:induction false} LexLinesCut(t: string, y: string) returns (k: nat)
    requires Lines(t)
    ensures var q := LexLines(t);
      && (q.Closed? ==> Cut(t, k) && q.rest == t[k..] && LexLines(t + y) == Closed(q.value, t[k..] + y))
      && (q.Unclosed? && LexLines(y).Unclosed? ==> LexLines(t + y).Unclosed?)
    decreases |t|, 1
  {
    k := 0;
    if t == "" {
      assert t + y == y;
    } else {
      hide *;
      HasBreak(t, y);
      DotLineCut(t, y);
      if DotLine(t) > 0 {
        k := DotLine(t);
        LexLinesEnd(t);
        LexLinesEnd(t + y);
        CutParts(t, y, k);
      } else {
        k := LexLinesOn(t, y);
      }
    }
  }

  lemma {:induction false} LexLinesOn(t: string, y: string) returns (k: nat)
    requires Lines(t) && t != "" && DotLine(t) == 0 == DotLine(t + y) && '\n' in t && '\n' in t + y
    ensures var q := LexLines(t);
      && (q.Closed? ==> Cut(t, k) && q.rest == t[k..] && LexLines(t + y) == Closed(q.value, t[k..] + y))
      && (q.Unclosed? && LexLines(y).Unclosed? ==> LexLines(t + y).Unclosed?)
    decreases |t|, 0
  {
    hide *;
    var i := AfterLineCut(t, y);
    CutParts(t, y, i);
    k := LexLinesCut(t[i..], y);
    LexLinesStep(t, i);
    LexLinesStep(t + y, i);
    if LexLines(t[i..]).Closed? {
      CutMore(t, i, k);
      k := i + k;
    }
  }

  lemma {:induction false} LinesBeginCut(t: string, y: string) returns (k: nat)
    requires Lines(t) && t != ""
    ensures LinesBegin(t).Some? ==> Cut(t, k) && LinesBegin(t) == Some(t[k..]) && LinesBegin(t + y) == Some(t[k..] + y)
    ensures LinesBegin(t).None? ==> LinesBegin(t + y).None?
  {
    k := 1;
    HeadOff(t, y);
    assert t[|t| - 1] in t && (t + y)[|t| - 1] in t + y;
    if t[0] != '\n' && Blank(t[0]) {
      var j := LinesBeginCut(t[1..], y);
      if LinesBegin(t).Some? {
        CutMore(t, 1, j);
        k := j + 1;
      }
    } else if t[0] == '#' {
      var j := AfterLineCut(t[1..], y);
      CutMore(t, 1, j);
      k := j + 1;
    }
  }

  lemma TextHasNoBreak(s: string)
    requires |s| >= 4 && ToLower(s[..4]) == "text"
    ensures s[0] != '\n' && s[1] != '\n' && s[2] != '\n' && s[3] != '\n'
  {
    var low := ToLower(s[..4]);
    assert low[0] == 't' && low[1] == 'e' && low[2] == 'x' && low[3] == 't';
  }

  lemma TextOpensCut(t: string, y: string) returns (k: nat)
    requires Lines(t) && t != ""
    ensures TextOpens(t).Some? ==> Cut(t, k) && TextOpens(t) == Some(t[k..]) && TextOpens(t + y) == Some(t[k..] + y)
    ensures TextOpens(t).None? ==> TextOpens(t + y).None?
  {
    k := 1;
    var s := t + y;
    if |s| >= 5 && ToLower(s[..4]) == "text" && s[4] == ':' {
      TextHasNoBreak(s);
      assert |t| > 5;
      assert s[..4] == t[..4] && s[5..] == t[5..] + y;
      var j := LinesBeginCut(t[5..], y);
      if LinesBegin(t[5..]).Some? {
        CutMore(t, 5, j);
        k := j + 5;
      }
    } else if |t| >= 5 {
      assert s[..4] == t[..4];
    }
  }

  lemma {:induction false} IdentCut(t: string, y: string)
    requires Lines(t)
    ensures t != "" ==> IdentLength(t + y) == IdentLength(t) < |t|
    ensures forall i :: 0 <= i < IdentLength(t) ==> IdentChar(t[i])
  {
    if t != "" {
      HeadOff(t, y);
      IdentCut(t[1..], y);
      assert t[1..] == "" ==> t[0] == '\n';
      assert forall i :: 1 <= i < |t| ==> t[i] == t[1..][i - 1];
    }
  }

  lemma {:induction false} DigitsCut(t: string, y: string)
    requires Lines(t)
    ensures t != "" ==> DigitsLength(t + y) == DigitsLength(t) < |t|
  {
    if t != "" {
      HeadOff(t, y);
      DigitsCut(t[1..], y);
      assert t[1..] == "" ==> t[0] == '\n';
    }
  }

  lemma FirstTokenCut(t: string, y: string)
    requires Lines(t) && t != ""
    ensures FirstToken(t + y) == FirstToken(t)
    ensures FirstToken(t).0 != Bad ==> Cut(t, FirstToken(t).1)
  {
    var s := t + y;
    HeadOff(t, y);
    if Alpha(t[0]) {
      IdentCut(t, y);
      assert IdentLength(t) > 0 && s[..IdentLength(t)] == t[..IdentLength(t)];
    } else if Digit(t[0]) {
      NumberCut(t, y);
    } else if t[0] == ':' {
      TagCut(t, y);
    }
  }

  lemma NumberCut(t: string, y: string)
    requires Lines(t) && t != "" && Digit(t[0])
    ensures FirstToken(t + y) == FirstToken(t) && Cut(t, FirstToken(t).1)
  {
    DigitsCut(t, y);
    DigitsAreDigits(t);
    var n := DigitsLength(t);
    assert n > 0 && (t + y)[..n] == t[..n] && (t + y)[n] == t[n];
    hide DigitsLength, DigitsValue;
  }

  lemma TagCut(t: string, y: string)
    requires Lines(t) && t != "" && t[0] == ':'
    ensures FirstToken(t + y) == FirstToken(t) && (FirstToken(t).0 != Bad ==> Cut(t, FirstToken(t).1))
  {
    var s, n := t + y, IdentLength(t[1..]);
    HeadOff(t, y);
    IdentCut(t[1..], y);
    assert s[1..n + 1] == t[1..n + 1] && s[1] == t[1];
    assert n > 0 ==> IdentChar(t[1..][n - 1]);
    hide IdentLength;
  }

  /** Whole lines are read alone, unless they leave a comment or a string open; text that is no token
      spoils what follows, and what is open stays so until it is closed. */
  ghost predicate Separates(t: string, y: string) {
    && (Proper(Lex(t)) ==> Lex(t + y) == Lex(t) + Lex(y))
    && (Bad in Lex(t) ==> Bad in Lex(t + y))
    && (Open in Lex(t) && AfterComment(y).None? && LexLines(y).Unclosed? ==> Open in Lex(t + y))
    && (Lex(t) == [] <==> Silent(t))
  }

  lemma {:induction false} LexBreak(t: string, y: string)
    requires Lines(t) && Guarded(t)
    ensures Separates(t, y)
    decreases |t|, 3
  {
    if t == "" {
      assert t + y == y;
    } else if Blank(t[0]) {
      assert Cut(t, 1);
      BreakSkipped(t, 1, y) by { HeadOff(t, y); }
    } else if t[0] == '#' {
      BreakComment(t, y);
    } else if CommentOpens(t) {
      BreakBracket(t, y);
    } else {
      BreakToken(t, y);
    }
  }

  /** Text that reads as its own tail does. */
  lemma BreakSkipped(t: string, k: nat, y: string)
    requires Lines(t) && Guarded(t) && Cut(t, k)
    requires Lex(t) == Lex(t[k..]) && Lex(t + y) == Lex(t[k..] + y) && Silent(t) == Silent(t[k..])
    ensures Separates(t, y)
    decreases |t|, 0
  {
    hide Lex, Silent, Guarded, AfterComment, LexLines;
    CutSuffix(t, k);
    LexBreak(t[k..], y);
  }

  lemma LexHash(s: string)
    requires s != "" && s[0] == '#'
    ensures Lex(s) == Lex(AfterLine(s[1..])) && Silent(s) == Silent(AfterLine(s[1..]))
  {
  }

  lemma BreakComment(t: string, y: string)
    requires Lines(t) && Guarded(t) && t != "" && t[0] == '#'
    ensures Separates(t, y)
    decreases |t|, 2
  {
    hide Lex, Silent, Separates, Guarded, AfterLine;
    HeadOff(t, y);
    LexHash(t);
    LexHash(t + y);
    var k := AfterLineCut(t[1..], y);
    CutMore(t, 1, k);
    BreakSkipped(t, k + 1, y);
  }

  lemma LexBracket(s: string)
    requires CommentOpens(s)
    ensures var r := AfterComment(s[2..]);
      if r.Some? then Lex(s) == Lex(r.value) && Silent(s) == Silent(r.value) else Lex(s) == [Open] && !Silent(s)
  {
    hide AfterLine, FirstToken, TextOpens;
  }

  lemma BreakBracket(t: string, y: string)
    requires Lines(t) && Guarded(t) && CommentOpens(t)
    ensures Separates(t, y)
    decreases |t|, 2
  {
    hide Lex, Silent, Guarded, AfterComment, LexLines;
    assert (t + y)[2..] == t[2..] + y;
    LexBracket(t);
    LexBracket(t + y);
    if AfterComment(t[2..]).Some? {
      var k := AfterCommentCut(t[2..], y);
      CutMore(t, 2, k);
      BreakSkipped(t, k + 2, y);
    } else if AfterComment(y).None? {
      CommentStaysOpen(t[2..], y);
    }
  }

  /** Text that begins with a token: the token and then the rest, or what cannot be read. */
  predicate Begins(s: string) {
    s != "" && !Blank(s[0]) && s[0] != '#' && s[0] != '"' && !CommentOpens(s)
  }

  lemma LexBegin(s: string)
    requires Begins(s)
    ensures !Silent(s)
    ensures TextOpens(s).Some? ==>
      var q := LexLines(TextOpens(s).value);
      Lex(s) == if q.Closed? then [Str(q.value)] + Lex(q.rest) else [Open]
    ensures TextOpens(s).None? ==>
      var (token, n) := FirstToken(s); Lex(s) == if token == Bad then [Bad] else [token] + Lex(s[n..])
  {
    hide AfterLine, FirstToken, TextOpens, LexLines, AfterComment, LexQuoted;
  }

  lemma BeginsCut(t: string, y: string)
    requires Lines(t) && Guarded(t) && t != "" && !Blank(t[0]) && t[0] != '#' && !CommentOpens(t)
    ensures Begins(t) && Begins(t + y)
  {
    assert |t| > 1;
    assert (t + y)[0] == t[0] && (t + y)[1] == t[1];
  }

  lemma BreakToken(t: string, y: string)
    requires Lines(t) && Guarded(t) && t != "" && !Blank(t[0]) && t[0] != '#' && !CommentOpens(t)
    ensures Separates(t, y)
    decreases |t|, 2
  {
    BeginsCut(t, y);
    hide *;
    var i := TextOpensCut(t, y);
    if TextOpens(t).Some? {
      LexBegin(t);
      LexBegin(t + y);
      BreakText(t, i, y);
    } else {
      BreakPlain(t, y);
    }
  }

  lemma BreakPlain(t: string, y: string)
    requires Lines(t) && Guarded(t) && Begins(t) && Begins(t + y) && TextOpens(t).None? && TextOpens(t + y).None?
    ensures Separates(t, y)
    decreases |t|, 1
  {
    LexBegin(t);
    LexBegin(t + y);
    assert t != "";
    hide *;
    FirstTokenCut(t, y);
    var (token, n) := FirstToken(t);
    if token == Bad {
      BreakBad(t, y);
    } else {
      CutAppend(t, y, n);
      BreakFirst(t, token, n, y);
    }
  }

  lemma CutAppend(t: string, y: string, k: nat)
    requires Cut(t, k)
    ensures (t + y)[k..] == t[k..] + y
  {
  }

  lemma BreakBad(t: string, y: string)
    requires Lex(t) == [Bad] == Lex(t + y) && !Silent(t)
    ensures Separates(t, y)
  {
    hide Lex, Silent, AfterComment, LexLines;
  }

  lemma BreakFirst(t: string, token: Token, k: nat, y: string)
    requires Lines(t) && Guarded(t) && Cut(t, k) && token != Bad && token != Open && !Silent(t)
    requires Lex(t) == [token] + Lex(t[k..]) && Lex(t + y) == [token] + Lex(t[k..] + y)
    ensures Separates(t, y)
    decreases |t|, 0
  {
    hide Lex, Silent, Guarded, AfterComment, LexLines;
    CutSuffix(t, k);
    LexBreak(t[k..], y);
  }

  lemma BreakText(t: string, i: nat, y: string)
    requires Lines(t) && Guarded(t) && !Silent(t) && Cut(t, i)
    requires var q := LexLines(t[i..]); Lex(t) == if q.Closed? then [Str(q.value)] + Lex(q.rest) else [Open]
    requires var q := LexLines(t[i..] + y); Lex(t + y) == if q.Closed? then [Str(q.value)] + Lex(q.rest) else [Open]
    ensures Separates(t, y)
    decreases |t|, 1
  {
    hide Lex, Silent, AfterComment, LexLines;
    CutSuffix(t, i);
    hide Guarded;
    var j := LexLinesCut(t[i..], y);
    var q := LexLines(t[i..]);
    if q.Closed? {
      CutMore(t, i, j);
      BreakFirst(t, Str(q.value), i + j, y);
    }
  }

  // ----- escaped text -----

  lemma {:induction false} AfterLineEscape(v: string)
    ensures AfterLine(SieveEscape(v)) == SieveEscape(AfterLine(v))
  {
    if v != "" {
      AfterLineEscape(v[1..]);
      var tail := SieveEscape(v[1..]);
      if v[0] == '\\' || v[0] == '"' {
        assert SieveEscape(v) == ['\\', v[0]] + tail;
        assert (['\\', v[0]] + tail)[1..] == [v[0]] + tail && ([v[0]] + tail)[1..] == tail;
      } else {
        assert SieveEscape(v) == [v[0]] + tail;
        assert ([v[0]] + tail)[1..] == tail;
      }
    }
  }

  lemma AfterCommentSkips(c: char, s: string)
    requires !(c == '*' && s != "" && s[0] == '/')
    ensures AfterComment([c] + s) == AfterComment(s)
  {
    assert ([c] + s)[1..] == s;
  }

  lemma AfterCommentEnds(s: string)
    ensures AfterComment("*/" + s) == Some(s)
  {
    assert ("*/" + s)[2..] == s;
  }

  lemma EscapeEnds(v: string)
    requires |v| > 1 && v[0] == '*' && v[1] == '/'
    ensures v == "*/" + v[2..] && SieveEscape(v) == "*/" + SieveEscape(v[2..])
  {
    hide *;
    TwoOff(v);
    EscapePlainHead(v[0], v[1..]);
    EscapePlainHead(v[1], v[2..]);
    TwoOn(SieveEscape(v[2..]));
  }

  lemma TwoOff(v: string)
    requires |v| > 1 && v[0] == '*' && v[1] == '/'
    ensures v == "*/" + v[2..] && v == [v[0]] + v[1..] && v[1..] == [v[1]] + v[2..]
  {
  }

  lemma TwoOn(s: string)
    ensures ['*'] + (['/'] + s) == "*/" + s
  {
  }

  lemma EscapePlainHead(c: char, s: string)
    requires c != '\\' && c != '"'
    ensures SieveEscape([c] + s) == [c] + SieveEscape(s)
  {
    assert ([c] + s)[1..] == s;
  }

  lemma {:induction false} AfterCommentEscape(v: string)
    ensures AfterComment(SieveEscape(v)) ==
      if AfterComment(v).Some? then Some(SieveEscape(AfterComment(v).value)) else None
  {
    if |v| > 1 && v[0] == '*' && v[1] == '/' {
      hide *;
      EscapeEnds(v);
      AfterCommentEnds(v[2..]);
      AfterCommentEnds(SieveEscape(v[2..]));
    } else if v != "" {
      AfterCommentEscape(v[1..]);
      EscapeHead(v);
      EscapeHead(v[1..]);
      hide SieveEscape, AfterComment;
      var tail := SieveEscape(v[1..]);
      assert v == [v[0]] + v[1..];
      AfterCommentSkips(v[0], v[1..]);
      AfterCommentSkips(v[0], tail);
      if Escaped(v[0]) {
        AfterCommentSkips('\\', [v[0]] + tail);
        assert SieveEscape(v) == ['\\'] + ([v[0]] + tail);
      }
    }
  }

  predicate Escaped(c: char) {
    c == '\\' || c == '"'
  }

  lemma EscapeHead(v: string)
    ensures v == "" ==> SieveEscape(v) == ""
    ensures v != "" ==> SieveEscape(v) == (if Escaped(v[0]) then ['\\', v[0]] else [v[0]]) + SieveEscape(v[1..])
  {
  }

  /** Escaping does not change whether text is silent. */
  lemma {:induction false} SilentEscape(v: string)
    ensures Silent(SieveEscape(v)) <==> Silent(v)
    decreases |v|
  {
    if v != "" {
      var e := SieveEscape(v);
      EscapeHead(v);
      EscapeHead(v[1..]);
      hide SieveEscape;
      if Blank(v[0]) {
        SilentEscape(v[1..]);
        assert e[1..] == SieveEscape(v[1..]);
      } else if v[0] == '#' {
        SilentEscape(AfterLine(v[1..]));
        AfterLineEscape(v[1..]);
        assert e[1..] == SieveEscape(v[1..]);
      } else if CommentOpens(v) {
        AfterCommentEscape(v[2..]);
        assert v[1..][1..] == v[2..];
        assert e[2..] == SieveEscape(v[2..]);
        if AfterComment(v[2..]).Some? {
          SilentEscape(AfterComment(v[2..]).value);
        }
      } else {
        assert e[0] == v[0] || e[0] == '\\';
        assert CommentOpens(e) ==> CommentOpens(v);
      }
    }
  }

  lemma {:induction false} EscapeAppend(v: string, c: char)
    requires !Escaped(c)
    ensures SieveEscape(v + [c]) == SieveEscape(v) + [c]
  {
    if v == "" {
      assert v + [c] == [c];
    } else {
      EscapeAppend(v[1..], c);
      assert (v + [c])[1..] == v[1..] + [c];
    }
  }
}
