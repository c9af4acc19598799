/** The compiled text, token by token, is the printed form of the intended commands. */
module MailRulesProof {
  import opened Text
  import opened Mailboxes
  import opened MailRules
  import S = Sieve
  import opened SieveGrammar
  import opened SieveLexing

  // ----- conditions -----

  /** A key is looked for in a value without regard to case. */
  const CONTAINS := S.Match(S.Contains, false)

  function TestOf(c: Condition): S.Test {
    match c
    case FromContains(k) => S.Header(CONTAINS, ["from"], [k])
    case FromDomainIs(k) => S.Address(S.Domain, S.Match(S.Is, false), ["from"], [k])
    case ToContains(k) => S.Address(S.All, CONTAINS, ["to", "cc", "bcc"], [k])
    case SubjectContains(k) => S.Header(CONTAINS, ["subject"], [k])
    case BodyContains(k) => S.Body(CONTAINS, [k])
  }

  function ConditionArguments(c: Condition): seq<S.Argument> {
    match c
    case FromContains(k) => [S.TagArg("contains"), S.StrArg("from"), S.StrArg(k)]
    case FromDomainIs(k) => [S.TagArg("domain"), S.TagArg("is"), S.StrArg("from"), S.StrArg(k)]
    case ToContains(k) => [S.TagArg("contains"), S.ListArg(["to", "cc", "bcc"]), S.StrArg(k)]
    case SubjectContains(k) => [S.TagArg("contains"), S.StrArg("subject"), S.StrArg(k)]
    case BodyContains(k) => [S.TagArg("contains"), S.StrArg(k)]
  }

  function ConditionName(c: Condition): string {
    match c
    case FromContains(_) => "header"
    case FromDomainIs(_) => "address"
    case ToContains(_) => "address"
    case SubjectContains(_) => "header"
    case BodyContains(_) => "body"
  }

  function ConditionPhrase(c: Condition): S.Phrase {
    S.Phrase(ConditionName(c), ConditionArguments(c), S.NoTest)
  }

  function ConditionTokens(c: Condition): seq<S.Token> {
    match c
    case FromContains(k) => [S.Ident("header"), S.Tag("contains"), S.Str("from"), S.Str(k)]
    case FromDomainIs(k) => [S.Ident("address"), S.Tag("domain"), S.Tag("is"), S.Str("from"), S.Str(k)]
    case ToContains(k) =>
      [S.Ident("address"), S.Tag("contains"), S.LBrack, S.Str("to"), S.Comma, S.Str("cc"), S.Comma, S.Str("bcc"),
        S.RBrack, S.Str(k)]
    case SubjectContains(k) => [S.Ident("header"), S.Tag("contains"), S.Str("subject"), S.Str(k)]
    case BodyContains(k) => [S.Ident("body"), S.Tag("contains"), S.Str(k)]
  }

  lemma LexHeaderTest(name: string, k: string, rest: string)
    requires LowerWord(name)
    ensures S.Lex("header :contains \"" + name + "\" " + Quote(k) + rest) ==
            [S.Ident("header"), S.Tag("contains"), S.Str(name), S.Str(k)] + S.Lex(rest)
  {
    hide S.Lex, Quote;
    var r4 := Quote(k) + rest;
    var r3 := [' '] + r4;
    var r2 := "\"" + name + "\"" + r3;
    var r1 := ":" + "contains" + ([' '] + r2);
    assert "header :contains \"" + name + "\" " + Quote(k) + rest == "header" + ([' '] + r1);
    LexWord("header", [' '] + r1);
    LexBlank(' ', r1);
    LexTag("contains", [' '] + r2);
    LexBlank(' ', r2);
    LexPlainString(name, r3);
    LexBlank(' ', r4);
    LexQuote(k, rest);
  }

  lemma LexCondition(c: Condition, rest: string)
    ensures S.Lex(ConditionText(c) + rest) == ConditionTokens(c) + S.Lex(rest)
  {
    hide S.Lex, Quote, ConditionText, ConditionTokens;
    match c {
      case FromContains(k) => LexFromTest(k, rest);
      case SubjectContains(k) => LexSubjectTest(k, rest);
      case FromDomainIs(k) => LexDomainTest(k, rest);
      case ToContains(k) => LexRecipientTest(k, rest);
      case BodyContains(k) => LexBodyTest(k, rest);
    }
  }

  lemma LexFromTest(k: string, rest: string)
    ensures S.Lex(ConditionText(FromContains(k)) + rest) == ConditionTokens(FromContains(k)) + S.Lex(rest)
  {
    hide S.Lex, Quote;
    assert ConditionText(FromContains(k)) + rest == "header :contains \"" + "from" + "\" " + Quote(k) + rest;
    LexHeaderTest("from", k, rest);
  }

  lemma LexSubjectTest(k: string, rest: string)
    ensures S.Lex(ConditionText(SubjectContains(k)) + rest) == ConditionTokens(SubjectContains(k)) + S.Lex(rest)
  {
    hide S.Lex, Quote;
    assert ConditionText(SubjectContains(k)) + rest == "header :contains \"" + "subject" + "\" " + Quote(k) + rest;
    LexHeaderTest("subject", k, rest);
  }

  lemma LexBodyTest(k: string, rest: string)
    ensures S.Lex(ConditionText(BodyContains(k)) + rest) == ConditionTokens(BodyContains(k)) + S.Lex(rest)
  {
    hide S.Lex, Quote;
    var q := Quote(k) + rest;
    var r1 := ":" + "contains" + ([' '] + q);
    assert ConditionText(BodyContains(k)) + rest == "body" + ([' '] + r1);
    LexWord("body", [' '] + r1);
    LexBlank(' ', r1);
    LexTag("contains", [' '] + q);
    LexBlank(' ', q);
    LexQuote(k, rest);
  }

  lemma LexDomainTest(k: string, rest: string)
    ensures S.Lex(ConditionText(FromDomainIs(k)) + rest) == ConditionTokens(FromDomainIs(k)) + S.Lex(rest)
  {
    hide S.Lex, Quote;
    var r4 := Quote(k) + rest;
    var r3 := "\"" + "from" + "\"" + ([' '] + r4);
    var r2 := ":" + "is" + ([' '] + r3);
    var r1 := ":" + "domain" + ([' '] + r2);
    assert ConditionText(FromDomainIs(k)) + rest == "address" + ([' '] + r1);
    LexWord("address", [' '] + r1);
    LexBlank(' ', r1);
    LexTag("domain", [' '] + r2);
    LexBlank(' ', r2);
    LexTag("is", [' '] + r3);
    LexBlank(' ', r3);
    LexPlainString("from", [' '] + r4);
    LexBlank(' ', r4);
    LexQuote(k, rest);
  }

  lemma LexRecipientTest(k: string, rest: string)
    ensures S.Lex(ConditionText(ToContains(k)) + rest) == ConditionTokens(ToContains(k)) + S.Lex(rest)
  {
    RecipientText(Quote(k), rest);
    LexRecipientParts(Quote(k) + rest);
    hide S.Lex, Quote;
    LexQuote(k, rest);
    assert RECIPIENT_TOKENS + ([S.Str(k)] + S.Lex(rest)) == ConditionTokens(ToContains(k)) + S.Lex(rest);
  }

  const RECIPIENT_TOKENS :=
    [S.Ident("address"), S.Tag("contains"), S.LBrack, S.Str("to"), S.Comma, S.Str("cc"), S.Comma, S.Str("bcc"),
     S.RBrack]

  lemma LexRecipientParts(rest: string)
    ensures var arguments := ":" + "contains" + ([' '] + ("[\"to\", \"cc\", \"bcc\"]" + ([' '] + rest)));
      S.Lex("address" + ([' '] + arguments)) == RECIPIENT_TOKENS + S.Lex(rest)
  {
    hide S.Lex;
    var r2 := "[\"to\", \"cc\", \"bcc\"]" + ([' '] + rest);
    var r1 := ":" + "contains" + ([' '] + r2);
    LexWord("address", [' '] + r1);
    LexBlank(' ', r1);
    LexTag("contains", [' '] + r2);
    LexBlank(' ', r2);
    LexRecipients([' '] + rest);
    LexBlank(' ', rest);
  }

  lemma RecipientText(q: string, rest: string)
    ensures "address :contains [\"to\", \"cc\", \"bcc\"] " + q + rest ==
      "address" + ([' '] + (":" + "contains" + ([' '] + ("[\"to\", \"cc\", \"bcc\"]" + ([' '] + (q + rest))))))
  {
  }

  lemma LexRecipients(rest: string)
    ensures S.Lex("[\"to\", \"cc\", \"bcc\"]" + rest) ==
      [S.LBrack, S.Str("to"), S.Comma, S.Str("cc"), S.Comma, S.Str("bcc"), S.RBrack] + S.Lex(rest)
  {
    hide S.Lex;
    var r5 := [']'] + rest;
    var r4 := [','] + ([' '] + ("\"" + "bcc" + "\"" + r5));
    var r3 := [','] + ([' '] + ("\"" + "cc" + "\"" + r4));
    assert "[\"to\", \"cc\", \"bcc\"]" + rest == ['['] + ("\"" + "to" + "\"" + r3);
    LexPunctuation('[', "\"" + "to" + "\"" + r3);
    LexPlainString("to", r3);
    LexListItem("cc", r4);
    LexListItem("bcc", r5);
    LexPunctuation(']', rest);
  }

  lemma LexListItem(v: string, rest: string)
    requires LowerWord(v)
    ensures S.Lex([','] + ([' '] + ("\"" + v + "\"" + rest))) == [S.Comma, S.Str(v)] + S.Lex(rest)
  {
    hide S.Lex;
    var r := "\"" + v + "\"" + rest;
    LexPunctuation(',', [' '] + r);
    LexBlank(' ', r);
    LexPlainString(v, rest);
  }

  lemma PrintThree(a: S.Argument, b: S.Argument, c: S.Argument)
    ensures PrintArguments([a, b, c]) == PrintArgument(a) + (PrintArgument(b) + PrintArgument(c))
  {
    PrintTwo(b, c);
    assert [a, b, c][1..] == [b, c];
  }

  lemma PrintTwo(a: S.Argument, b: S.Argument)
    ensures PrintArguments([a, b]) == PrintArgument(a) + PrintArgument(b)
  {
    assert [a, b][1..] == [b] && [b][1..] == [];
    assert PrintArguments([]) == [];
    assert PrintArguments([b]) == PrintArgument(b);
  }

  lemma PrintRecipients()
    ensures PrintItems(["to", "cc", "bcc"]) ==
      [S.Str("to"), S.Comma, S.Str("cc"), S.Comma, S.Str("bcc"), S.RBrack]
  {
    assert ["to", "cc", "bcc"][1..] == ["cc", "bcc"] && ["cc", "bcc"][1..] == ["bcc"];
    assert PrintItems(["bcc"]) == [S.Str("bcc"), S.RBrack];
  }

  lemma PrintBare(name: string, args: seq<S.Argument>)
    ensures PrintPhrase(S.Phrase(name, args, S.NoTest)) == [S.Ident(name)] + PrintArguments(args)
    ensures SoundPhrase(S.Phrase(name, args, S.NoTest)) == SoundArguments(args)
  {
    hide PrintArguments, SoundArguments;
  }

  lemma PrintRecipientArguments(k: string)
    ensures PrintArguments(ConditionArguments(ToContains(k))) ==
      [S.Tag("contains"), S.LBrack, S.Str("to"), S.Comma, S.Str("cc"), S.Comma, S.Str("bcc"), S.RBrack, S.Str(k)]
  {
    hide PrintArguments, PrintItems;
    PrintThree(S.TagArg("contains"), S.ListArg(["to", "cc", "bcc"]), S.StrArg(k));
    PrintRecipients();
  }

  lemma PrintDomainArguments(k: string)
    ensures PrintArguments(ConditionArguments(FromDomainIs(k))) ==
      [S.Tag("domain"), S.Tag("is"), S.Str("from"), S.Str(k)]
  {
    var args := ConditionArguments(FromDomainIs(k));
    PrintThree(args[1], args[2], args[3]);
    assert args[1..] == [args[1], args[2], args[3]];
  }

  /** The tokens of an emitted condition are those of the intended test, whatever its key holds. */
  lemma PrintCondition(c: Condition)
    ensures PrintPhrase(ConditionPhrase(c)) == ConditionTokens(c) && SoundPhrase(ConditionPhrase(c))
  {
    hide PrintPhrase, SoundPhrase, PrintArguments;
    var args := ConditionArguments(c);
    PrintBare(ConditionName(c), args);
    match c {
      case FromContains(k) => PrintThree(args[0], args[1], args[2]);
      case SubjectContains(k) => PrintThree(args[0], args[1], args[2]);
      case FromDomainIs(k) => PrintDomainArguments(k);
      case ToContains(k) => PrintRecipientArguments(k);
      case BodyContains(k) => PrintTwo(args[0], args[1]);
    }
  }

  /** Which is read as that test. */
  lemma ReadCondition(c: Condition)
    ensures S.ReadTest(ConditionPhrase(c)) == Some(TestOf(c))
  {
    var args := ConditionArguments(c);
    var none := S.NO_OPTIONS;
    match c {
      case FromContains(k) => ReadOneOption(args);
      case SubjectContains(k) => ReadOneOption(args);
      case ToContains(k) => ReadOneOption(args);
      case BodyContains(k) => ReadOneOption(args);
      case FromDomainIs(k) =>
        var o := none.(part := Some(S.Domain));
        assert args[1..] == [S.TagArg("is"), S.StrArg("from"), S.StrArg(k)];
        assert args[1..][1..] == [S.StrArg("from"), S.StrArg(k)];
        assert S.ReadOptions(args[1..], o) == Some((o.(kind := Some(S.Is)), args[1..][1..]));
        assert S.ReadOptions(args, none) == S.ReadOptions(args[1..], o);
    }
  }

  lemma ReadOneOption(args: seq<S.Argument>)
    requires |args| > 1 && args[0] == S.TagArg("contains") && !args[1].TagArg?
    ensures S.ReadOptions(args, S.NO_OPTIONS) == Some((S.NO_OPTIONS.(kind := Some(S.Contains)), args[1..]))
  {
    var o := S.NO_OPTIONS.(kind := Some(S.Contains));
    assert args[1..][0] == args[1];
    assert S.ReadOptions(args[1..], o) == Some((o, args[1..]));
  }

  // ----- lists of conditions -----

  function TestsOf(cs: seq<Condition>): (r: seq<S.Test>)
    ensures |r| == |cs| && forall i :: 0 <= i < |cs| ==> r[i] == TestOf(cs[i])
  {
    seq(|cs|, i requires 0 <= i < |cs| => TestOf(cs[i]))
  }

  function ListTokens(cs: seq<Condition>): seq<S.Token>
    requires cs != []
  {
    if |cs| == 1 then ConditionTokens(cs[0]) else ConditionTokens(cs[0]) + [S.Comma] + ListTokens(cs[1..])
  }

  lemma {:induction false} LexConditions(cs: seq<Condition>, rest: string)
    requires cs != []
    ensures S.Lex(Join(Texts(cs), ", ") + rest) == ListTokens(cs) + S.Lex(rest)
  {
    hide S.Lex, ConditionText, ConditionTokens;
    if |cs| == 1 {
      LexCondition(cs[0], rest);
    } else {
      var tail := Join(Texts(cs[1..]), ", ") + rest;
      assert Texts(cs)[1..] == Texts(cs[1..]);
      assert Join(Texts(cs), ", ") + rest == ConditionText(cs[0]) + ([','] + ([' '] + tail));
      LexCondition(cs[0], [','] + ([' '] + tail));
      LexPunctuation(',', [' '] + tail);
      LexBlank(' ', tail);
      LexConditions(cs[1..], rest);
    }
  }

  function Phrases(cs: seq<Condition>): (r: seq<S.Phrase>)
    ensures |r| == |cs| && forall i :: 0 <= i < |cs| ==> r[i] == ConditionPhrase(cs[i])
  {
    seq(|cs|, i requires 0 <= i < |cs| => ConditionPhrase(cs[i]))
  }

  lemma {:induction false} PrintConditions(cs: seq<Condition>)
    requires cs != []
    ensures PrintPhrases(Phrases(cs)) == ListTokens(cs) + [S.RParen] && SoundPhrases(Phrases(cs))
  {
    hide PrintPhrase, ConditionTokens, ConditionPhrase, SoundPhrase;
    PrintCondition(cs[0]);
    if |cs| > 1 {
      assert Phrases(cs)[1..] == Phrases(cs[1..]);
      PrintConditions(cs[1..]);
      Grouped(ConditionTokens(cs[0]) + [S.Comma], ListTokens(cs[1..]), [S.RParen]);
      Grouped(ConditionTokens(cs[0]), [S.Comma], ListTokens(cs[1..]) + [S.RParen]);
      SoundParts(Phrases(cs));
    }
  }

  lemma {:induction false} ReadConditions(cs: seq<Condition>)
    ensures S.ReadTests(Phrases(cs)) == Some(TestsOf(cs))
  {
    hide S.ReadTest, ConditionPhrase, TestOf;
    if cs != [] {
      ReadCondition(cs[0]);
      assert Phrases(cs)[1..] == Phrases(cs[1..]);
      ReadConditions(cs[1..]);
      assert TestsOf(cs) == [TestOf(cs[0])] + TestsOf(cs[1..]);
    }
  }

  function ExpressionTest(r: Rule): S.Test {
    var cs := ConditionList(r);
    if |cs| == 1 then TestOf(cs[0]) else if MatchesAny(r) then S.AnyOf(TestsOf(cs)) else S.AllOf(TestsOf(cs))
  }

  function ExpressionPhrase(r: Rule): S.Phrase {
    var cs := ConditionList(r);
    if |cs| == 1 then ConditionPhrase(cs[0])
    else S.Phrase(if MatchesAny(r) then "anyof" else "allof", [], S.TestList(Phrases(cs)))
  }

  function ExpressionTokens(r: Rule): seq<S.Token>
    requires ConditionList(r) != []
  {
    var cs := ConditionList(r);
    if |cs| == 1 then ConditionTokens(cs[0])
    else [S.Ident(if MatchesAny(r) then "anyof" else "allof"), S.LParen] + ListTokens(cs) + [S.RParen]
  }

  lemma LexExpression(r: Rule, rest: string)
    requires ConditionList(r) != []
    ensures S.Lex(ExpressionText(r) + rest) == ExpressionTokens(r) + S.Lex(rest)
  {
    hide S.Lex, ConditionText, ConditionTokens, ListTokens, ConditionList, Join, MatchesAny;
    var cs := ConditionList(r);
    if |cs| == 1 {
      LexCondition(cs[0], rest);
    } else {
      var joiner := if MatchesAny(r) then "anyof" else "allof";
      var list := Join(Texts(cs), ", ") + ([')'] + rest);
      assert ExpressionText(r) + rest == joiner + (['('] + list);
      LexWord(joiner, ['('] + list);
      LexPunctuation('(', list);
      LexConditions(cs, [')'] + rest);
      LexPunctuation(')', rest);
    }
  }

  lemma PrintExpression(r: Rule)
    requires ConditionList(r) != []
    ensures PrintPhrase(ExpressionPhrase(r)) == ExpressionTokens(r) && SoundPhrase(ExpressionPhrase(r))
  {
    hide ConditionTokens, ListTokens, ConditionList, MatchesAny, ConditionPhrase, Phrases, PrintPhrases;
    var cs := ConditionList(r);
    if |cs| == 1 {
      hide PrintPhrase, SoundPhrase;
      PrintCondition(cs[0]);
    } else {
      PrintConditions(cs);
      assert PrintArguments([]) == [];
    }
  }

  lemma ReadExpression(r: Rule)
    ensures S.ReadTest(ExpressionPhrase(r)) == Some(ExpressionTest(r))
  {
    hide ConditionList, TestOf, TestsOf, MatchesAny, ConditionPhrase, Phrases;
    var cs := ConditionList(r);
    if |cs| == 1 {
      ReadCondition(cs[0]);
    } else {
      ReadConditions(cs);
    }
  }

  // ----- actions -----

  function CommandOf(s: Step): S.Command {
    match s
    case MoveTo(mb) => S.FileInto(mb)
    case MarkSeen => S.AddFlag(["\\Seen"])
    case RedirectTo(a) => S.Redirect(a)
    case StopHere => S.Stop
  }

  function CommandsOf(ss: seq<Step>): (r: seq<S.Command>)
    ensures |r| == |ss| && forall i :: 0 <= i < |ss| ==> r[i] == CommandOf(ss[i])
  {
    seq(|ss|, i requires 0 <= i < |ss| => CommandOf(ss[i]))
  }

  function StepTokens(s: Step): seq<S.Token> {
    match s
    case MoveTo(mb) => [S.Ident("fileinto"), S.Str(mb), S.Semi]
    case MarkSeen => [S.Ident("addflag"), S.Str("\\Seen"), S.Semi]
    case RedirectTo(a) => [S.Ident("redirect"), S.Str(a), S.Semi]
    case StopHere => [S.Ident("stop"), S.Semi]
  }

  function StepsTokens(ss: seq<Step>): seq<S.Token> {
    if ss == [] then [] else StepTokens(ss[0]) + StepsTokens(ss[1..])
  }

  lemma LexQuotedCommand(word: string, v: string, rest: string)
    requires LowerWord(word) && word != "text"
    ensures S.Lex(word + " " + Quote(v) + ";" + rest) == [S.Ident(word), S.Str(v), S.Semi] + S.Lex(rest)
  {
    hide S.Lex, Quote;
    var r1 := Quote(v) + ([';'] + rest);
    assert word + " " + Quote(v) + ";" + rest == word + ([' '] + r1);
    LexWord(word, [' '] + r1);
    LexBlank(' ', r1);
    LexQuote(v, [';'] + rest);
    LexPunctuation(';', rest);
  }

  lemma QuoteSeen()
    ensures Quote("\\Seen") == "\"\\\\Seen\""
  {
    EscapePlain("Seen");
    assert "\\Seen"[1..] == "Seen";
    assert SieveEscape("\\Seen") == "\\\\" + SieveEscape("Seen");
  }

  lemma LexStep(s: Step, rest: string)
    ensures S.Lex(StepText(s) + rest) == StepTokens(s) + S.Lex(rest)
  {
    hide S.Lex, Quote;
    match s {
      case MoveTo(mb) =>
        LexQuotedCommand("fileinto", mb, rest);
        assert StepText(s) + rest == "fileinto" + " " + Quote(mb) + ";" + rest;
      case MarkSeen =>
        LexMarkSeen(rest);
      case RedirectTo(a) =>
        LexQuotedCommand("redirect", a, rest);
        assert StepText(s) + rest == "redirect" + " " + Quote(a) + ";" + rest;
      case StopHere =>
        LexStop(rest);
    }
  }

  lemma LexMarkSeen(rest: string)
    ensures S.Lex(StepText(MarkSeen) + rest) == StepTokens(MarkSeen) + S.Lex(rest)
  {
    hide S.Lex, Quote;
    QuoteSeen();
    assert StepText(MarkSeen) + rest == "addflag" + " " + Quote("\\Seen") + ";" + rest;
    LexQuotedCommand("addflag", "\\Seen", rest);
  }

  lemma LexStop(rest: string)
    ensures S.Lex(StepText(StopHere) + rest) == StepTokens(StopHere) + S.Lex(rest)
  {
    hide S.Lex;
    assert StepText(StopHere) + rest == "stop" + ([';'] + rest);
    LexWord("stop", [';'] + rest);
    LexPunctuation(';', rest);
  }

  function StepTree(s: Step): S.Tree {
    match s
    case MoveTo(mb) => S.Simple(S.Phrase("fileinto", [S.StrArg(mb)], S.NoTest))
    case MarkSeen => S.Simple(S.Phrase("addflag", [S.StrArg("\\Seen")], S.NoTest))
    case RedirectTo(a) => S.Simple(S.Phrase("redirect", [S.StrArg(a)], S.NoTest))
    case StopHere => S.Simple(S.Phrase("stop", [], S.NoTest))
  }

  lemma PrintStep(s: Step)
    ensures PrintTree(StepTree(s)) == StepTokens(s) && SoundTree(StepTree(s))
  {
    assert PrintArguments([]) == [];
    var args := StepTree(s).phrase.args;
    assert args != [] ==> args[1..] == [];
    assert PrintArguments(args) == if args == [] then [] else PrintArgument(args[0]);
  }

  lemma ReadStep(s: Step)
    ensures S.ReadSimple(StepTree(s).phrase) == Some(CommandOf(s))
  {
  }

  function StepTrees(ss: seq<Step>): (r: seq<S.Tree>)
    ensures |r| == |ss| && forall i :: 0 <= i < |ss| ==> r[i] == StepTree(ss[i])
  {
    seq(|ss|, i requires 0 <= i < |ss| => StepTree(ss[i]))
  }

  lemma {:induction false} LexSteps(ss: seq<Step>, rest: string)
    requires ss != []
    ensures S.Lex(Join(StepTexts(ss), "\n  ") + rest) == StepsTokens(ss) + S.Lex(rest)
  {
    hide S.Lex, StepText, StepTokens;
    if |ss| == 1 {
      LexStep(ss[0], rest);
      assert StepsTokens(ss[1..]) == [];
    } else {
      var tail := Join(StepTexts(ss[1..]), "\n  ") + rest;
      assert StepTexts(ss)[1..] == StepTexts(ss[1..]);
      var r1 := [' '] + ([' '] + tail);
      assert Join(StepTexts(ss), "\n  ") + rest == StepText(ss[0]) + (['\n'] + r1);
      LexStep(ss[0], ['\n'] + r1);
      LexBlank('\n', r1);
      LexBlank(' ', [' '] + tail);
      LexBlank(' ', tail);
      LexSteps(ss[1..], rest);
    }
  }

  lemma {:induction false} PrintSteps(ss: seq<Step>)
    ensures PrintTrees(StepTrees(ss)) == StepsTokens(ss) && SoundTrees(StepTrees(ss))
  {
    hide PrintTree, StepTokens, StepTree, SoundTree;
    if ss != [] {
      PrintStep(ss[0]);
      assert StepTrees(ss)[1..] == StepTrees(ss[1..]);
      PrintSteps(ss[1..]);
      SoundTreesParts(StepTrees(ss));
    }
  }

  lemma {:induction false} ReadSteps(ss: seq<Step>)
    ensures S.ReadCommands(StepTrees(ss)) == Some(CommandsOf(ss))
  {
    hide S.ReadSimple, CommandOf;
    if ss != [] {
      ReadStep(ss[0]);
      assert StepTrees(ss)[0].Simple?;
      assert StepTrees(ss)[1..] == StepTrees(ss[1..]);
      ReadSteps(ss[1..]);
      assert CommandsOf(ss) == [CommandOf(ss[0])] + CommandsOf(ss[1..]);
    }
  }

  // ----- blocks -----

  function BlockCommand(r: Rule, mailboxes: seq<Mailbox>): S.Command {
    S.If(ExpressionTest(r), CommandsOf(StepList(r, mailboxes)), [])
  }

  function BlockTree(r: Rule, mailboxes: seq<Mailbox>): S.Tree {
    S.Compound(S.Phrase("if", [], S.OneTest(ExpressionPhrase(r))), StepTrees(StepList(r, mailboxes)))
  }

  function BlockTokens(r: Rule, mailboxes: seq<Mailbox>): seq<S.Token>
    requires ConditionList(r) != []
  {
    [S.Ident("if")] + ExpressionTokens(r) + [S.LBrace] + StepsTokens(StepList(r, mailboxes)) + [S.RBrace]
  }

  /** The lines of a name after the first, which its comment does not cover. */
  function LaterLines(name: string): string {
    S.AfterLine(name + ['\n'])
  }

  /** They are white space and comments. */
  predicate Quiet(name: string) {
    Silent(LaterLines(TrimSpace(name)))
  }

  predicate QuietName(r: Rule) {
    Quiet(r.name)
  }

  /** The tokens a name leaves outside its comment. */
  function Noise(r: Rule): seq<S.Token> {
    S.Lex(LaterLines(SieveEscape(TrimSpace(r.name))))
  }

  /** A name on one line is quiet. */
  lemma OneLineIsQuiet(r: Rule)
    requires '\n' !in TrimSpace(r.name)
    ensures QuietName(r)
  {
    AfterLineSkips(TrimSpace(r.name), "");
    assert "\n" + "" == ['\n'];
  }

  lemma ConditionListMatches(r: Rule)
    ensures ConditionList(r) != [] <==> HasCondition(r)
  {
    hide TrimConditions;
  }

  /** The text of a block, cut where its parts end. */
  lemma BlockShape(name: string, expression: string, steps: string, rest: string)
    ensures "# " + name + "\nif " + expression + " {\n  " + steps + "\n}" + rest ==
      "#" + (" " + name) + "\n" + (("if " + expression + " {\n  " + steps + "\n}") + rest)
  {
  }

  lemma BodyShape(expression: string, steps: string, rest: string)
    ensures "if " + expression + " {\n  " + steps + "\n}" + rest ==
      "if" + ([' '] + (expression
        + ([' '] + (['{'] + (['\n'] + ([' '] + ([' '] + (steps + (['\n'] + (['}'] + rest))))))))))
  {
  }

  lemma LexOpen(rest: string)
    ensures S.Lex([' '] + (['{'] + (['\n'] + ([' '] + ([' '] + rest))))) == [S.LBrace] + S.Lex(rest)
  {
    hide S.Lex;
    var r := ['\n'] + ([' '] + ([' '] + rest));
    LexBlank(' ', ['{'] + r);
    LexPunctuation('{', r);
    LexBlank('\n', [' '] + ([' '] + rest));
    LexBlank(' ', [' '] + rest);
    LexBlank(' ', rest);
  }

  lemma LexClose(rest: string)
    ensures S.Lex(['\n'] + (['}'] + rest)) == [S.RBrace] + S.Lex(rest)
  {
    hide S.Lex;
    LexBlank('\n', ['}'] + rest);
    LexPunctuation('}', rest);
  }

  lemma LaterLinesCut(name: string, y: string)
    requires Guarded(name)
    ensures Lines(LaterLines(name)) && Guarded(LaterLines(name))
    ensures S.AfterLine(" " + name + "\n" + y) == LaterLines(name) + y
  {
    var t := name + ['\n'];
    assert Guarded(t) && Lines(t);
    var k := AfterLineCut(t, y);
    CutSuffix(t, k);
    hide Guarded, Lines, S.AfterLine;
    AfterBlank(t + y);
    assert " " + name + "\n" + y == " " + (t + y);
  }

  lemma AfterBlank(s: string)
    ensures S.AfterLine(" " + s) == S.AfterLine(s)
  {
    assert (" " + s)[1..] == s;
  }

  lemma LexBlockStart(name: string, y: string)
    requires Guarded(name)
    ensures Separates(LaterLines(name), y)
    ensures S.Lex("#" + (" " + name) + "\n" + y) == S.Lex(LaterLines(name) + y)
  {
    hide S.Lex, S.AfterLine, Guarded, Silent, LaterLines, Separates;
    LaterLinesCut(name, y);
    LexBreak(LaterLines(name), y);
    var s := "#" + (" " + name) + "\n" + y;
    assert s[0] == '#' && s[1..] == " " + name + "\n" + y;
    LexHash(s);
  }

  lemma LaterLinesEscape(name: string)
    ensures LaterLines(SieveEscape(name)) == SieveEscape(LaterLines(name))
  {
    EscapeAppend(name, '\n');
    AfterLineEscape(name + ['\n']);
  }

  lemma QuietIsNoNoise(r: Rule)
    ensures Noise(r) == [] <==> QuietName(r)
  {
    var n := TrimSpace(r.name);
    hide S.Lex, S.AfterLine, Silent, Guarded, SieveEscape, LaterLines;
    EscapeGuarded(n);
    LaterLinesCut(SieveEscape(n), "");
    LexBreak(LaterLines(SieveEscape(n)), "");
    LaterLinesEscape(n);
    SilentEscape(LaterLines(n));
  }

  /** What follows the comment line of a block. */
  function BodyText(r: Rule, mailboxes: seq<Mailbox>): string {
    "if " + ExpressionText(r) + " {\n  " + Join(StepTexts(StepList(r, mailboxes)), "\n  ") + "\n}"
  }

  /** The body of a block is read as its tokens. */
  lemma LexBody(r: Rule, mailboxes: seq<Mailbox>, rest: string)
    requires Emitted(r, mailboxes) && ConditionList(r) != []
    ensures S.Lex(BodyText(r, mailboxes) + rest) == BlockTokens(r, mailboxes) + S.Lex(rest)
  {
    hide S.Lex, ExpressionText, ExpressionTokens, ConditionList, StepList, HasCondition, Join, StepsTokens, StepTexts;
    var ss := StepList(r, mailboxes);
    var steps := Join(StepTexts(ss), "\n  ");
    var close := ['\n'] + (['}'] + rest);
    var open := [' '] + (['{'] + (['\n'] + ([' '] + ([' '] + (steps + close)))));
    BodyShape(ExpressionText(r), steps, rest);
    LexWord("if", [' '] + (ExpressionText(r) + open));
    LexBlank(' ', ExpressionText(r) + open);
    LexExpression(r, open);
    LexOpen(steps + close);
    LexSteps(ss, close);
    LexClose(rest);
    BlockTokensShape(ExpressionTokens(r), StepsTokens(ss), S.Lex(rest));
  }

  /** The tokens left by a name, which text follows: they come first; or they spoil the text; or they leave a
      comment or a string open over it. */
  ghost predicate Leads(noise: seq<S.Token>, all: seq<S.Token>, rest: seq<S.Token>, behind: string) {
    && (Proper(noise) ==> all == noise + rest)
    && (S.Bad in noise ==> S.Bad in all)
    && (S.Open in noise && S.AfterComment(behind).None? && S.LexLines(behind).Unclosed? ==> S.Open in all)
  }

  /** A block reads as the tokens its name leaves, then its own. */
  lemma LexBlock(r: Rule, mailboxes: seq<Mailbox>, rest: string)
    requires Emitted(r, mailboxes) && ConditionList(r) != []
    ensures Leads(Noise(r), S.Lex(BlockText(r, mailboxes) + rest), BlockTokens(r, mailboxes) + S.Lex(rest),
      BodyText(r, mailboxes) + rest)
  {
    var name, y := SieveEscape(TrimSpace(r.name)), BodyText(r, mailboxes) + rest;
    BlockSplits(r, mailboxes, rest);
    hide S.Lex, BodyText, BlockText, BlockTokens, ConditionList, Emitted, TrimSpace, SieveEscape, LaterLines,
        S.AfterComment, S.LexLines, Guarded, Silent;
    EscapeGuarded(TrimSpace(r.name));
    LexBlockStart(name, y);
    LexBody(r, mailboxes, rest);
  }

  lemma BlockSplits(r: Rule, mailboxes: seq<Mailbox>, rest: string)
    ensures BlockText(r, mailboxes) + rest ==
      "#" + (" " + SieveEscape(TrimSpace(r.name))) + "\n" + (BodyText(r, mailboxes) + rest)
  {
    hide ExpressionText, StepList, Join, StepTexts, SieveEscape, TrimSpace;
    var steps := Join(StepTexts(StepList(r, mailboxes)), "\n  ");
    BlockShape(SieveEscape(TrimSpace(r.name)), ExpressionText(r), steps, rest);
  }

  lemma BlockTokensShape(expression: seq<S.Token>, steps: seq<S.Token>, rest: seq<S.Token>)
    ensures [S.Ident("if")] + expression + [S.LBrace] + steps + [S.RBrace] + rest ==
      [S.Ident("if")] + (expression + ([S.LBrace] + (steps + ([S.RBrace] + rest))))
  {
  }

  lemma PrintIf(p: S.Phrase)
    ensures PrintPhrase(S.Phrase("if", [], S.OneTest(p))) == [S.Ident("if")] + PrintPhrase(p)
    ensures SoundPhrase(S.Phrase("if", [], S.OneTest(p))) == SoundPhrase(p)
  {
    assert PrintArguments([]) == [];
  }

  lemma PrintCompound(p: S.Phrase, block: seq<S.Tree>)
    ensures PrintTree(S.Compound(p, block)) == PrintPhrase(p) + [S.LBrace] + PrintTrees(block) + [S.RBrace]
    ensures SoundTree(S.Compound(p, block)) == (SoundPhrase(p) && SoundTrees(block))
  {
    hide PrintPhrase, PrintTrees, SoundPhrase;
    Grouped(PrintPhrase(p), [S.LBrace], PrintTrees(block) + [S.RBrace]);
    Grouped(PrintPhrase(p) + [S.LBrace], PrintTrees(block), [S.RBrace]);
  }

  lemma PrintBlock(r: Rule, mailboxes: seq<Mailbox>)
    requires ConditionList(r) != []
    ensures PrintTree(BlockTree(r, mailboxes)) == BlockTokens(r, mailboxes) && SoundTree(BlockTree(r, mailboxes))
  {
    hide ExpressionTokens, ExpressionPhrase, ConditionList, StepList, StepsTokens, StepTrees, PrintTrees, PrintPhrase,
        SoundPhrase, SoundTree, PrintTree, SoundTrees;
    PrintExpression(r);
    PrintSteps(StepList(r, mailboxes));
    PrintIf(ExpressionPhrase(r));
    PrintCompound(BlockTree(r, mailboxes).phrase, StepTrees(StepList(r, mailboxes)));
  }

  lemma ReadBlock(r: Rule, mailboxes: seq<Mailbox>)
    ensures var t := BlockTree(r, mailboxes);
      && S.ReadBranch(t.phrase) == Some(ExpressionTest(r))
      && S.ReadCommands(t.block) == Some(CommandsOf(StepList(r, mailboxes)))
  {
    hide ExpressionPhrase, StepList, StepTrees, CommandsOf, S.ReadTest, S.ReadCommands, ExpressionTest;
    ReadExpression(r);
    ReadSteps(StepList(r, mailboxes));
  }

  function BlockTrees(rs: seq<Rule>, mailboxes: seq<Mailbox>): seq<S.Tree> {
    if rs == [] then [] else [BlockTree(rs[0], mailboxes)] + BlockTrees(rs[1..], mailboxes)
  }

  function BlockCommands(rs: seq<Rule>, mailboxes: seq<Mailbox>): seq<S.Command> {
    if rs == [] then [] else [BlockCommand(rs[0], mailboxes)] + BlockCommands(rs[1..], mailboxes)
  }

  predicate AllEmitted(rs: seq<Rule>, mailboxes: seq<Mailbox>) {
    forall r :: r in rs ==> Emitted(r, mailboxes)
  }

  predicate QuietNames(rs: seq<Rule>) {
    forall r :: r in rs ==> QuietName(r)
  }

  /** The tokens of the blocks of some rules. */
  function BlocksLex(rs: seq<Rule>, mailboxes: seq<Mailbox>): seq<S.Token> {
    if rs == [] then [] else S.Lex(Join(BlockTexts(rs, mailboxes), "\n\n"))
  }

  /** The first block, then the others. */
  lemma BlocksLexCons(rs: seq<Rule>, mailboxes: seq<Mailbox>)
    requires rs != [] && AllEmitted(rs, mailboxes)
    ensures ConditionList(rs[0]) != []
    ensures var all := BlocksLex(rs, mailboxes); var noise := Noise(rs[0]);
      && (Proper(noise) ==> all == noise + (BlockTokens(rs[0], mailboxes) + BlocksLex(rs[1..], mailboxes)))
      && (S.Bad in noise ==> S.Bad in all)
  {
    ConditionListMatches(rs[0]);
    assert rs[0] in rs;
    assert Emitted(rs[0], mailboxes);
    hide S.Lex, BlockText, BlockTokens, StepList, ConditionList, Noise, Emitted, S.AfterComment, S.LexLines;
    var rest := BlocksRest(rs, mailboxes);
    LexBlock(rs[0], mailboxes, rest);
  }

  /** What follows the first block. */
  lemma BlocksRest(rs: seq<Rule>, mailboxes: seq<Mailbox>) returns (rest: string)
    requires rs != []
    ensures Join(BlockTexts(rs, mailboxes), "\n\n") == BlockText(rs[0], mailboxes) + rest
    ensures S.Lex(rest) == BlocksLex(rs[1..], mailboxes)
  {
    hide S.Lex, BlockText;
    if |rs| == 1 {
      rest := "";
      LexEmpty();
      assert BlockText(rs[0], mailboxes) + "" == BlockText(rs[0], mailboxes);
    } else {
      var tail := Join(BlockTexts(rs[1..], mailboxes), "\n\n");
      rest := ['\n'] + (['\n'] + tail);
      assert BlockTexts(rs, mailboxes)[1..] == BlockTexts(rs[1..], mailboxes);
      assert Join(BlockTexts(rs, mailboxes), "\n\n") == BlockText(rs[0], mailboxes) + rest;
      LexBlank('\n', ['\n'] + tail);
      LexBlank('\n', tail);
    }
  }

  /** The blocks of quiet names are the printed form of their trees. */
  lemma {:induction false} PrintBlocks(rs: seq<Rule>, mailboxes: seq<Mailbox>)
    requires AllEmitted(rs, mailboxes) && QuietNames(rs)
    ensures BlocksLex(rs, mailboxes) == PrintTrees(BlockTrees(rs, mailboxes))
  {
    if rs != [] {
      assert QuietName(rs[0]) by { assert rs[0] in rs; }
      hide BlockTree, BlocksLex, Emitted, QuietName, BlockTokens, Noise, ConditionList, PrintTree, PrintTrees;
      PrintBlocks(rs[1..], mailboxes);
      QuietIsNoNoise(rs[0]);
      BlocksLexCons(rs, mailboxes);
      PrintBlock(rs[0], mailboxes);
      PrintAnother(BlockTree(rs[0], mailboxes), BlockTrees(rs[1..], mailboxes));
    }
  }

  lemma PrintAnother(t: S.Tree, trees: seq<S.Tree>)
    ensures PrintTrees([t] + trees) == [] + (PrintTree(t) + PrintTrees(trees))
  {
    hide PrintTree;
    assert ([t] + trees)[1..] == trees;
  }

  lemma {:induction false} SoundBlocks(rs: seq<Rule>, mailboxes: seq<Mailbox>)
    requires AllEmitted(rs, mailboxes)
    ensures SoundTrees(BlockTrees(rs, mailboxes))
  {
    if rs != [] {
      assert Emitted(rs[0], mailboxes) by { assert rs[0] in rs; }
      ConditionListMatches(rs[0]);
      hide BlockTree, ConditionList, HasCondition, StepList, SoundTree;
      PrintBlock(rs[0], mailboxes);
      SoundBlocks(rs[1..], mailboxes);
    }
  }

  /** They are read as such. */
  lemma ParseBlocks(rs: seq<Rule>, mailboxes: seq<Mailbox>)
    requires AllEmitted(rs, mailboxes) && QuietNames(rs)
    ensures S.ParseTrees(BlocksLex(rs, mailboxes)) == Some(BlockTrees(rs, mailboxes))
  {
    var trees := BlockTrees(rs, mailboxes);
    assert S.ParseTrees([]) == Some([]);
    hide *;
    PrintBlocks(rs, mailboxes);
    SoundBlocks(rs, mailboxes);
    ParseTreesOf(trees, []);
    assert PrintTrees(trees) + [] == PrintTrees(trees) && trees + [] == trees;
  }

  /** A conditional in front of commands that do not continue it. */
  lemma ReadAnotherBlock(r: Rule, mailboxes: seq<Mailbox>, more: seq<S.Tree>)
    requires more != [] ==> !S.GoesOn(more[0])
    ensures var cmds := S.ReadCommands(more);
      S.ReadCommands([BlockTree(r, mailboxes)] + more) ==
      if cmds.Some? then Some([BlockCommand(r, mailboxes)] + cmds.value) else None
  {
    ReadBlock(r, mailboxes);
    var t := BlockTree(r, mailboxes);
    assert t.Compound? && t.phrase.name == "if";
    ReadAlone(t, more);
    hide BlockTree, S.ReadCommands;
  }

  lemma ReadAlone(t: S.Tree, more: seq<S.Tree>)
    requires t.Compound? && t.phrase.name == "if" && S.ReadBranch(t.phrase).Some? && S.ReadCommands(t.block).Some?
    requires more != [] ==> !S.GoesOn(more[0])
    ensures var cmds := S.ReadCommands(more);
      S.ReadCommands([t] + more) ==
      if cmds.Some? then Some([S.If(S.ReadBranch(t.phrase).value, S.ReadCommands(t.block).value, [])] + cmds.value)
      else None
  {
    hide S.ReadBranch;
    var ts := [t] + more;
    assert ts[1..] == more && ts[0] == t;
    assert S.ReadElse(more) == Some(([], 0));
    assert ts[1 + 0..] == more;
  }

  /** The trees of the blocks are read as their commands. */
  lemma {:induction false} ReadBlocks(rs: seq<Rule>, mailboxes: seq<Mailbox>)
    ensures S.ReadCommands(BlockTrees(rs, mailboxes)) == Some(BlockCommands(rs, mailboxes))
    ensures rs != [] ==> BlockTrees(rs, mailboxes)[0].phrase.name == "if"
  {
    if rs == [] {
      assert S.ReadCommands([]) == Some([]);
    } else {
      ReadBlocks(rs[1..], mailboxes);
      hide S.ReadCommands, BlockCommand;
      ReadAnotherBlock(rs[0], mailboxes, BlockTrees(rs[1..], mailboxes));
    }
  }

  lemma LexEmpty()
    ensures S.Lex("") == []
  {
  }
}
