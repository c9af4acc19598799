/** Multi-line strings are read back as they were written (section 2.4.2 of RFC 5228). */
module SieveLaws {
  import opened Text
  import opened Sieve
  import opened SieveLexing

  // ----- multi-line strings -----

  /** A first line, with its line feed. */
  predicate OneLine(line: string) {
    line != "" && line[|line| - 1] == '\n' && '\n' !in line[..|line| - 1]
  }

  lemma LongerLine(c: char, line: string)
    requires c != '\n' && OneLine(line)
    ensures OneLine([c] + line)
  {
    assert ([c] + line)[..|line|] == [c] + line[..|line| - 1];
  }

  lemma {:induction false} LineOf(s: string) returns (line: string)
    requires '\n' in s
    ensures OneLine(line) && s == line + AfterLine(s)
  {
    assert s == [s[0]] + s[1..];
    if s[0] == '\n' {
      line := ['\n'];
    } else {
      var more := LineOf(s[1..]);
      LongerLine(s[0], more);
      line := [s[0]] + more;
      hide AfterLine, OneLine;
    }
  }

  lemma LineSplits(s: string)
    requires '\n' in s
    ensures |AfterLine(s)| < |s| && s == s[..|s| - |AfterLine(s)|] + AfterLine(s)
    ensures OneLine(s[..|s| - |AfterLine(s)|])
  {
    var line := LineOf(s);
    NoEmptyLine(line);
    hide AfterLine, OneLine;
    assert s[..|line|] == line;
  }

  /** Text of whole lines as a script carries it: a dot at the start of a line is doubled. */
  function Stuffed(s: string): string
    decreases |s|
  {
    if '\n' !in s then s
    else
      LineSplits(s);
      var rest := AfterLine(s);
      (if s[0] == '.' then "." else "") + (s[..|s| - |rest|] + Stuffed(rest))
  }

  lemma AfterStuffedLine(line: string, rest: string)
    requires OneLine(line)
    ensures AfterLine(line + rest) == rest
  {
    AfterLineSkips(line[..|line| - 1], rest);
    assert line + rest == line[..|line| - 1] + ("\n" + rest);
  }

  /** One line written, and the rest behind it. */
  lemma StuffedLine(line: string, dot: string, rest: string, value: string, behind: string)
    requires OneLine(line)
    requires dot == (if line[0] == '.' then "." else "") && LexLines(rest) == Closed(value, behind)
    ensures LexLines(dot + (line + rest)) == Closed(line + value, behind)
  {
    var all, s := dot + line, dot + (line + rest);
    DottedLine(line, dot, rest);
    hide *;
    AfterStuffedLine(all, rest);
    LexLinesStep(s, |all|);
  }

  lemma DottedLine(line: string, dot: string, rest: string)
    requires OneLine(line) && dot == (if line[0] == '.' then "." else "")
    ensures var all, s := dot + line, dot + (line + rest);
      && OneLine(all) && s == all + rest && s[..|all|] == all && s[|all|..] == rest && '\n' in s
      && DotLine(s) == 0 && Unstuffed(all) == line
  {
    var all, s := dot + line, dot + (line + rest);
    assert all[..|all| - 1] == dot + line[..|line| - 1] && s == all + rest;
    assert s[|all| - 1] == '\n' && s[|all| - 1] in s;
    if dot == "." {
      assert all[1..] == line;
    }
  }

  lemma EndOfLines(behind: string)
    ensures LexLines(".\n" + behind) == Closed("", behind)
  {
    var s := ".\n" + behind;
    assert s[1] == '\n' && s[1] in s;
    assert DotLine(s) == 2 && s[2..] == behind;
  }

  lemma {:induction false} LexStuffed(s: string, behind: string)
    requires Lines(s)
    ensures LexLines(Stuffed(s) + (".\n" + behind)) == Closed(s, behind)
    decreases |s|
  {
    if s == "" {
      EndOfLines(behind);
      assert "" + (".\n" + behind) == ".\n" + behind;
    } else {
      FirstLine(s);
      hide *;
      var next := AfterLine(s);
      var line, dot := s[..|s| - |next|], if s[0] == '.' then "." else "";
      LexStuffed(next, behind);
      StuffedLine(line, dot, Stuffed(next) + (".\n" + behind), next, behind);
      Regrouped(dot, line, Stuffed(next), ".\n" + behind);
    }
  }

  lemma Regrouped(a: string, b: string, c: string, d: string)
    ensures a + (b + c) + d == a + (b + (c + d))
  {
  }

  /** The first of whole lines. */
  lemma FirstLine(s: string)
    requires Lines(s) && s != ""
    ensures var next := AfterLine(s); var line := s[..|s| - |next|];
      && |next| < |s| && Lines(next) && s == line + next
      && OneLine(line) && line[0] == s[0]
      && Stuffed(s) == (if s[0] == '.' then "." else "") + (line + Stuffed(next))
  {
    assert s[|s| - 1] in s;
    LineSplits(s);
    var next := AfterLine(s);
    var line := s[..|s| - |next|];
    assert Stuffed(s) == (if s[0] == '.' then "." else "") + (line + Stuffed(next));
    hide AfterLine, Stuffed, OneLine;
    LastStays(line, next);
    assert line != "" by { NoEmptyLine(line); }
  }

  lemma NoEmptyLine(line: string)
    requires OneLine(line)
    ensures line != ""
  {
  }

  lemma LastStays(a: string, b: string)
    requires Lines(a + b)
    ensures Lines(b)
  {
    assert b != "" ==> (a + b)[|a + b| - 1] == b[|b| - 1];
  }

  /** Text of whole lines, written as a multi-line string, comes back as one token. */
  lemma LexMultiLine(s: string, behind: string)
    requires Lines(s)
    ensures Lex("text:\n" + (Stuffed(s) + (".\n" + behind))) == [Str(s)] + Lex(behind)
  {
    hide *;
    var body := Stuffed(s) + (".\n" + behind);
    LexStuffed(s, behind);
    TextOpensLines(body);
    LexBegin("text:\n" + body);
  }

  lemma TextOpensLines(body: string)
    ensures TextOpens("text:\n" + body) == Some(body) && Begins("text:\n" + body)
  {
    var all := "text:\n" + body;
    assert all[..4] == "text" && ToLower("text") == "text" && all[4] == ':';
    assert all[5..] == "\n" + body && ("\n" + body)[1..] == body;
  }
}
