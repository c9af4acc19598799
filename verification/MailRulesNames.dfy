/** Rule names in the script. A name is written behind a comment sign as it is, so a name of several lines reaches
    outside its comment. Here is exactly when that does no harm, under the whole grammar of Sieve. */
module MailRulesNames {
  import opened Text
  import opened Mailboxes
  import opened MailRules
  import S = Sieve
  import opened SieveGrammar
  import opened SieveLexing
  import opened MailRulesProof
  import opened MailRulesTheorems

  /** No name leaves a comment or a multi-line string open. */
  predicate ClosedNames(rs: seq<Rule>) {
    forall r :: r in rs ==> S.Open !in Noise(r)
  }

  predicate AsMeant(rs: seq<Rule>, mailboxes: seq<Mailbox>) {
    S.Parse(ScriptText(rs, mailboxes)) == Some([RequireTree(Capabilities(rs))] + BlockTrees(rs, mailboxes))
  }

  /** The number of tokens that names leave. */
  function NoiseSize(rs: seq<Rule>): nat {
    if rs == [] then 0 else |Noise(rs[0])| + NoiseSize(rs[1..])
  }

  lemma ProperParts(a: seq<S.Token>, b: seq<S.Token>)
    ensures Proper(a + b) <==> Proper(a) && Proper(b)
  {
  }

  lemma ClosedParts(rs: seq<Rule>)
    requires rs != [] && ClosedNames(rs)
    ensures S.Open !in Noise(rs[0]) && ClosedNames(rs[1..])
  {
    hide Noise;
    assert rs[0] in rs;
  }

  lemma EmittedParts(rs: seq<Rule>, mailboxes: seq<Mailbox>)
    requires rs != [] && AllEmitted(rs, mailboxes)
    ensures Emitted(rs[0], mailboxes) && AllEmitted(rs[1..], mailboxes)
  {
    hide Emitted;
    assert rs[0] in rs;
  }

  lemma PrintedSize(r: Rule, rs: seq<Rule>, mailboxes: seq<Mailbox>)
    requires ConditionList(r) != []
    ensures |PrintTrees([BlockTree(r, mailboxes)] + BlockTrees(rs, mailboxes))| ==
      |BlockTokens(r, mailboxes)| + |PrintTrees(BlockTrees(rs, mailboxes))|
  {
    hide *;
    PrintBlock(r, mailboxes);
    PrintAnother(BlockTree(r, mailboxes), BlockTrees(rs, mailboxes));
  }

  /** The blocks have the tokens that were meant and those that names leave. */
  lemma {:induction false} BlocksSize(rs: seq<Rule>, mailboxes: seq<Mailbox>)
    requires AllEmitted(rs, mailboxes) && ClosedNames(rs) && Proper(BlocksLex(rs, mailboxes))
    ensures |BlocksLex(rs, mailboxes)| == |PrintTrees(BlockTrees(rs, mailboxes))| + NoiseSize(rs)
  {
    if rs != [] {
      hide Noise, BlocksLex, BlockTree, BlockTokens, AllEmitted, ClosedNames, Proper, ConditionList, PrintTrees,
          Emitted;
      BlocksLexCons(rs, mailboxes);
      ClosedParts(rs);
      EmittedParts(rs, mailboxes);
      var noise, block, rest := Noise(rs[0]), BlockTokens(rs[0], mailboxes), BlocksLex(rs[1..], mailboxes);
      ClosedIsProper(noise, BlocksLex(rs, mailboxes));
      ProperParts(noise, block + rest);
      ProperParts(block, rest);
      BlocksSize(rs[1..], mailboxes);
      PrintedSize(rs[0], rs[1..], mailboxes);
    }
  }

  lemma ClosedIsProper(noise: seq<S.Token>, all: seq<S.Token>)
    requires Proper(all) && S.Open !in noise && (S.Bad in noise ==> S.Bad in all)
    ensures Proper(noise)
  {
  }

  lemma {:induction false} NoNoiseIsQuiet(rs: seq<Rule>)
    requires NoiseSize(rs) == 0
    ensures QuietNames(rs)
  {
    if rs != [] {
      QuietIsNoNoise(rs[0]);
      hide Noise, QuietName;
      NoNoiseIsQuiet(rs[1..]);
      assert rs == [rs[0]] + rs[1..];
    }
  }

  lemma AsMeantBlocks(rs: seq<Rule>, mailboxes: seq<Mailbox>)
    ensures AsMeant(rs, mailboxes) <==> S.ParseTrees(BlocksLex(rs, mailboxes)) == Some(BlockTrees(rs, mailboxes))
  {
    hide S.Parse, S.ParseTrees, Capabilities, BlockTrees, BlocksLex, ScriptText, RequireTree;
    ScriptParses(rs, mailboxes);
    var head, trees := [RequireTree(Capabilities(rs))], BlockTrees(rs, mailboxes);
    var read := S.ParseTrees(BlocksLex(rs, mailboxes));
    assert (head + trees)[1..] == trees;
    assert read.Some? ==> (head + read.value)[1..] == read.value;
  }

  /** With closed names, the script is read as meant if and only if the later lines of every name are white space and
      comments. */
  lemma NamesExact(rs: seq<Rule>, mailboxes: seq<Mailbox>)
    requires AllEmitted(rs, mailboxes) && ClosedNames(rs)
    ensures AsMeant(rs, mailboxes) <==> QuietNames(rs)
  {
    hide *;
    AsMeantBlocks(rs, mailboxes);
    if QuietNames(rs) {
      ParseBlocks(rs, mailboxes);
    }
    var all := BlocksLex(rs, mailboxes);
    if S.ParseTrees(all) == Some(BlockTrees(rs, mailboxes)) {
      TreesPrint(all);
      TreesProper(BlockTrees(rs, mailboxes));
      BlocksSize(rs, mailboxes);
      NoNoiseIsQuiet(rs);
    }
  }

  // ----- one name, in every rule -----

  /** The name does no harm in any rule. */
  ghost predicate Harmless(name: string) {
    forall r: Rule, mailboxes: seq<Mailbox> :: r.name == name && Emitted(r, mailboxes) ==> AsMeant([r], mailboxes)
  }

  /** A rule of few words, under any name. */
  function PlainRule(name: string): Rule {
    Rule(name, true, "", Conditions("a", "", "", "", ""), Actions("", "", false, "", true))
  }

  lemma PlainConditions()
    ensures TrimConditions(PlainRule("").conditions) == Conditions("a", "", "", "", "")
  {
    assert TrimSpace("a") == "a" && TrimSpace("") == "";
  }

  lemma PlainActions()
    ensures TrimActions(PlainRule("").actions) == Actions("", "", false, "", true)
  {
    assert TrimSpace("") == "";
  }

  lemma PlainEmitted(name: string)
    ensures Emitted(PlainRule(name), [])
    ensures ConditionList(PlainRule(name)) == [FromContains("a")] && StepList(PlainRule(name), []) == [StopHere]
  {
    PlainConditions();
    PlainActions();
    hide TrimConditions, TrimActions;
  }

  const PLAIN_TEST := "header :contains \"from\" " + "\"a\""
  const PLAIN_BODY := "if " + PLAIN_TEST + " {\n  " + "stop;" + "\n}"

  lemma PlainBody(name: string)
    ensures BodyText(PlainRule(name), []) == PLAIN_BODY
  {
    PlainEmitted(name);
    EscapePlain("a");
    hide ConditionList, StepList, Emitted, SieveEscape;
    assert Quote("a") == "\"a\"";
    assert StepTexts([StopHere])[0] == StepText(StopHere);
    assert Join(StepTexts([StopHere]), "\n  ") == "stop;";
  }

  lemma {:induction false} NoStarNoEnd(s: string)
    requires '*' !in s
    ensures S.AfterComment(s).None?
  {
    if s != "" {
      NoStarNoEnd(s[1..]);
    }
  }

  lemma {:induction false} NoDotNoEnd(s: string)
    requires '.' !in s
    ensures S.LexLines(s).Unclosed?
    decreases |s|
  {
    if '\n' in s {
      AfterLineShorter(s);
      var next := S.AfterLine(s);
      NoDotNoEnd(next);
      assert s[0] != '.';
    }
  }

  lemma {:induction false} AfterLineShorter(s: string)
    ensures s != "" ==> |S.AfterLine(s)| < |s|
    ensures forall c :: c in S.AfterLine(s) ==> c in s
  {
    if s != "" {
      AfterLineShorter(s[1..]);
    }
  }

  lemma PlainCloses()
    ensures S.AfterComment(PLAIN_BODY).None? && S.LexLines(PLAIN_BODY).Unclosed?
  {
    assert '*' !in PLAIN_BODY && '.' !in PLAIN_BODY;
    hide S.AfterComment, S.LexLines;
    NoStarNoEnd(PLAIN_BODY);
    NoDotNoEnd(PLAIN_BODY);
  }

  lemma OneBlockLex(r: Rule, mailboxes: seq<Mailbox>)
    ensures BlocksLex([r], mailboxes) == S.Lex(BlockText(r, mailboxes))
  {
    hide BlockText, S.Lex;
    assert BlockTexts([r], mailboxes) == [BlockText(r, mailboxes)];
  }

  /** Text that a name leaves open swallows the plain rule. */
  lemma OpenPlain(name: string)
    requires S.Open in Noise(PlainRule(name))
    ensures !AsMeant([PlainRule(name)], [])
  {
    var r := PlainRule(name);
    hide *;
    PlainEmitted(name);
    PlainBody(name);
    PlainCloses();
    LexBlock(r, [], "");
    assert BlockText(r, []) + "" == BlockText(r, []) && BodyText(r, []) + "" == BodyText(r, []);
    LeadsOpen(Noise(r), S.Lex(BlockText(r, []) + ""), BlockTokens(r, []) + S.Lex(""), BodyText(r, []) + "");
    OneBlockLex(r, []);
    ImproperRefused(BlocksLex([r], []));
    AsMeantBlocks([r], []);
  }

  lemma LeadsOpen(noise: seq<S.Token>, all: seq<S.Token>, rest: seq<S.Token>, behind: string)
    requires Leads(noise, all, rest, behind) && S.Open in noise
    requires S.AfterComment(behind).None? && S.LexLines(behind).Unclosed?
    ensures !Proper(all)
  {
  }

  lemma NamesOfOne(r: Rule, mailboxes: seq<Mailbox>)
    ensures ClosedNames([r]) <==> S.Open !in Noise(r)
    ensures QuietNames([r]) <==> Quiet(r.name)
    ensures AllEmitted([r], mailboxes) <==> Emitted(r, mailboxes)
  {
    hide Noise, Quiet, Emitted;
    assert QuietName(r) <==> Quiet(r.name);
    assert r in [r];
  }

  lemma QuietHelps(r: Rule, mailboxes: seq<Mailbox>)
    requires Quiet(r.name) && Emitted(r, mailboxes)
    ensures AsMeant([r], mailboxes)
  {
    QuietIsNoNoise(r);
    assert QuietName(r);
    hide *;
    NamesOfOne(r, mailboxes);
    NamesExact([r], mailboxes);
  }

  lemma LoudHarms(name: string)
    requires !Quiet(name)
    ensures Emitted(PlainRule(name), []) && !AsMeant([PlainRule(name)], [])
  {
    var r := PlainRule(name);
    assert r.name == name;
    hide *;
    PlainEmitted(name);
    NamesOfOne(r, []);
    if S.Open in Noise(r) {
      OpenPlain(name);
    } else {
      NamesExact([r], []);
    }
  }

  /** A name does no harm in any rule if and only if its later lines are white space and comments. */
  lemma NameExact(name: string)
    ensures Harmless(name) <==> Quiet(name)
  {
    hide Quiet, Emitted, AsMeant;
    if Quiet(name) {
      forall r: Rule, mailboxes: seq<Mailbox> | r.name == name && Emitted(r, mailboxes)
        ensures AsMeant([r], mailboxes)
      {
        QuietHelps(r, mailboxes);
      }
    } else {
      LoudHarms(name);
      assert PlainRule(name).name == name;
    }
  }

  // ----- a comment over a whole rule -----

  lemma {:induction false} CommentCovers(text: string, rest: string)
    requires '*' !in text
    ensures S.AfterComment(text + ("*/" + rest)) == Some(rest)
  {
    if text == "" {
      AfterCommentEnds(rest);
      assert text + ("*/" + rest) == "*/" + rest;
    } else {
      var more := text[1..] + ("*/" + rest);
      CommentCovers(text[1..], rest);
      AfterCommentSkips(text[0], more);
      assert text + ("*/" + rest) == [text[0]] + more;
    }
  }

  const OPENING := "x\n/*"
  const CLOSING := "*/"

  lemma OpeningLines()
    ensures SieveEscape(OPENING) == OPENING && LaterLines(OPENING) == "/*\n"
  {
    EscapePlain(OPENING);
    AfterLineSkips("x", "/*\n");
    hide SieveEscape, S.AfterLine;
    assert OPENING + ['\n'] == "x" + ("\n" + "/*\n");
  }

  /** The text of the two blocks behind the first comment line. */
  lemma TwoBlocks(first: Rule, second: Rule, mailboxes: seq<Mailbox>)
    requires TrimSpace(second.name) == CLOSING
    ensures Join(BlockTexts([first, second], mailboxes), "\n\n") == BlockText(first, mailboxes)
      + ("\n\n# " + ("*/" + (['\n'] + (BodyText(second, mailboxes) + ""))))
  {
    hide *;
    var a, b := BlockText(first, mailboxes), BlockText(second, mailboxes);
    TextsOfTwo(first, second, mailboxes);
    ClosingEscaped();
    BlockSplits(second, mailboxes, "");
    assert b + "" == b;
    JoinTwo(a, b);
    Regrouped(a, BodyText(second, mailboxes) + "");
  }

  lemma TextsOfTwo(first: Rule, second: Rule, mailboxes: seq<Mailbox>)
    ensures BlockTexts([first, second], mailboxes) == [BlockText(first, mailboxes), BlockText(second, mailboxes)]
  {
    hide BlockText;
  }

  lemma ClosingEscaped()
    ensures SieveEscape(CLOSING) == "*/"
  {
    EscapePlain(CLOSING);
    hide SieveEscape;
  }

  lemma JoinTwo(a: string, b: string)
    ensures Join([a, b], "\n\n") == a + "\n\n" + b
  {
    assert [a, b][1..] == [b];
  }

  lemma Regrouped(a: string, b: string)
    ensures a + "\n\n" + ("#" + (" " + "*/") + "\n" + b) == a + ("\n\n# " + ("*/" + (['\n'] + b)))
  {
  }

  lemma CoveredLex(body: string, rest: string)
    requires '*' !in body
    ensures S.Lex("/*\n" + (body + ("\n\n# " + ("*/" + (['\n'] + rest))))) == S.Lex(rest)
  {
    hide S.Lex, S.AfterComment;
    var s := "/*\n" + (body + ("\n\n# " + ("*/" + (['\n'] + rest))));
    var covered := "\n" + body + "\n\n# ";
    assert s[2..] == covered + ("*/" + (['\n'] + rest));
    CommentCovers(covered, ['\n'] + rest);
    LexBracket(s);
    LexBlank('\n', rest);
  }

  lemma CoveredBlocks(first: Rule, second: Rule, mailboxes: seq<Mailbox>)
    requires AllEmitted([first, second], mailboxes)
    requires TrimSpace(first.name) == OPENING && TrimSpace(second.name) == CLOSING && '*' !in BodyText(first, mailboxes)
    ensures ConditionList(second) != [] && BlocksLex([first, second], mailboxes) == BlockTokens(second, mailboxes)
  {
    assert [first, second][0] == first && [first, second][1] == second;
    assert Emitted(second, mailboxes) && Emitted(first, mailboxes) by { hide Emitted; }
    ConditionListMatches(second);
    hide BodyText, BlockText, BlockTokens, S.Lex, SieveEscape, TrimSpace, ConditionList, HasCondition, StepList, Join,
        LaterLines;
    var rest := BodyText(second, mailboxes) + "";
    var behind := "\n\n# " + ("*/" + (['\n'] + rest));
    var y := BodyText(first, mailboxes) + behind;
    TwoBlocks(first, second, mailboxes);
    BlockSplits(first, mailboxes, behind);
    OpeningLines();
    EscapeGuarded(OPENING);
    LexBlockStart(OPENING, y);
    CoveredLex(BodyText(first, mailboxes), rest);
    LexBody(second, mailboxes, "");
    LexEmpty();
    assert BlockTokens(second, mailboxes) + [] == BlockTokens(second, mailboxes);
  }

  lemma OneTree(t: S.Tree)
    ensures S.ReadCommands([]) == Some([]) && S.ParseTrees([]) == Some([]) && (SoundTree(t) ==> SoundTrees([t]))
  {
    hide SoundTree;
  }

  /** Two names, each harmless to look at: the script is read, and the first rule is not in it. */
  lemma CommentHidesRule(first: Rule, second: Rule, mailboxes: seq<Mailbox>)
    requires AllEmitted([first, second], mailboxes)
    requires TrimSpace(first.name) == OPENING && TrimSpace(second.name) == CLOSING && '*' !in BodyText(first, mailboxes)
    ensures S.ReadScript(ScriptText([first, second], mailboxes)) ==
      Some([S.Require(Capabilities([first, second])), BlockCommand(second, mailboxes)])
  {
    var t := BlockTree(second, mailboxes);
    hide *;
    OneTree(t);
    CoveredBlocks(first, second, mailboxes);
    PrintBlock(second, mailboxes);
    PrintOne(t);
    ParseTreesOf([t], []);
    assert BlockTokens(second, mailboxes) + [] == BlockTokens(second, mailboxes) && [t] + [] == [t];
    ReadAnotherBlock(second, mailboxes, []);
    var caps, block := Capabilities([first, second]), BlockCommand(second, mailboxes);
    assert [block] + [] == [block] && [S.Require(caps)] + [block] == [S.Require(caps), block];
    ScriptReads([first, second], mailboxes, [t], [block]);
  }
}
