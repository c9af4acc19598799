/** What a script does whose names leave commands outside their comments: those commands are performed too, each in
    front of the rule that carries the name. */
module MailRulesNoise {
  import opened Text
  import opened Mailboxes
  import opened MailRules
  import S = Sieve
  import opened SieveGrammar
  import opened SieveLexing
  import opened MailRulesProof
  import opened MailRulesTheorems
  import opened MailRulesMeaning

  // ----- commands in a row -----

  lemma {:induction false} ElseAppend(a: seq<S.Tree>, b: seq<S.Tree>)
    requires S.ReadElse(a).Some? && (b != [] ==> !S.GoesOn(b[0]))
    ensures S.ReadElse(a + b) == S.ReadElse(a)
  {
    if a == [] {
      assert a + b == b;
    } else {
      assert (a + b)[0] == a[0] && (a + b)[1..] == a[1..] + b;
      hide S.ReadCommands, S.ReadBranch;
      if S.GoesOn(a[0]) && a[0].phrase.name != "else" {
        ElseAppend(a[1..], b);
      }
    }
  }

  /** What trees stand for when others follow that do not continue them. */
  ghost predicate ReadsInFront(a: seq<S.Tree>, b: seq<S.Tree>)
    requires S.ReadCommands(a).Some?
  {
    S.ReadCommands(a + b) ==
      if S.ReadCommands(b).Some? then Some(S.ReadCommands(a).value + S.ReadCommands(b).value) else None
  }

  function InFront(c: S.Command, more: Option<seq<S.Command>>): Option<seq<S.Command>> {
    if more.Some? then Some([c] + more.value) else None
  }

  lemma ReadSimpleFirst(ts: seq<S.Tree>)
    requires ts != [] && ts[0].Simple?
    ensures S.ReadCommands(ts).Some? ==> S.ReadSimple(ts[0].phrase).Some? && S.ReadCommands(ts[1..]).Some?
    ensures var c := S.ReadSimple(ts[0].phrase);
      c.Some? ==> S.ReadCommands(ts) == InFront(c.value, S.ReadCommands(ts[1..]))
  {
    hide S.ReadSimple;
  }

  lemma ReadIfFirst(ts: seq<S.Tree>)
    requires ts != [] && ts[0].Compound?
    ensures var test, block, otherwise := S.ReadBranch(ts[0].phrase), S.ReadCommands(ts[0].block), S.ReadElse(ts[1..]);
      && (S.ReadCommands(ts).Some? ==>
            && ts[0].phrase.name == "if" && test.Some? && block.Some? && otherwise.Some?
            && S.ReadCommands(ts[1 + otherwise.value.1..]).Some?)
      && (ts[0].phrase.name == "if" && test.Some? && block.Some? && otherwise.Some? ==>
            S.ReadCommands(ts) == InFront(S.If(test.value, block.value, otherwise.value.0),
              S.ReadCommands(ts[1 + otherwise.value.1..])))
  {
    hide S.ReadBranch, S.ReadElse;
  }

  lemma AppendCut(a: seq<S.Tree>, b: seq<S.Tree>, k: nat)
    requires k <= |a| && a != []
    ensures (a + b)[0] == a[0] && (a + b)[k..] == a[k..] + b
  {
  }

  lemma FrontStays(c: S.Command, a: seq<S.Tree>, b: seq<S.Tree>, whole: seq<S.Tree>, all: seq<S.Tree>)
    requires S.ReadCommands(a).Some? && ReadsInFront(a, b)
    requires S.ReadCommands(whole) == InFront(c, S.ReadCommands(a)) && whole + b == all
    requires S.ReadCommands(all) == InFront(c, S.ReadCommands(a + b))
    ensures ReadsInFront(whole, b)
  {
    hide S.ReadCommands;
    if S.ReadCommands(b).Some? {
      Grouped([c], S.ReadCommands(a).value, S.ReadCommands(b).value);
    }
  }

  lemma {:induction false} ReadAppend(a: seq<S.Tree>, b: seq<S.Tree>)
    requires S.ReadCommands(a).Some? && (b != [] ==> !S.GoesOn(b[0]))
    ensures ReadsInFront(a, b)
    decreases |a|
  {
    if a == [] {
      assert a + b == b;
      assert S.ReadCommands(b).Some? ==> [] + S.ReadCommands(b).value == S.ReadCommands(b).value;
    } else if a[0].Simple? {
      hide *;
      ReadSimpleFirst(a);
      ReadSimpleFirst(a + b);
      AppendCut(a, b, 1);
      ReadAppend(a[1..], b);
      FrontStays(S.ReadSimple(a[0].phrase).value, a[1..], b, a, a + b);
    } else {
      hide *;
      ReadIfFirst(a);
      ReadIfFirst(a + b);
      AppendCut(a, b, 1);
      ElseAppend(a[1..], b);
      var (otherwise, k) := S.ReadElse(a[1..]).value;
      AppendCut(a, b, 1 + k);
      ReadAppend(a[1 + k..], b);
      var c := S.If(S.ReadBranch(a[0].phrase).value, S.ReadCommands(a[0].block).value, otherwise);
      FrontStays(c, a[1 + k..], b, a, a + b);
    }
  }

  lemma CommandsHead(a: seq<S.Command>, b: seq<S.Command>)
    requires a != []
    ensures [a[0]] + a[1..] == a && [a[0]] + (a[1..] + b) == a + b
  {
  }

  lemma {:induction false} RunAppend(a: seq<S.Command>, b: seq<S.Command>, m: S.Message)
    ensures var first, more := S.Run(a, m), S.Run(b, m);
      S.Run(a + b, m) == if first.stopped then first else S.Outcome(first.trace + more.trace, more.stopped)
  {
    if a == [] {
      assert a + b == b;
    } else {
      hide *;
      CommandsHead(a, b);
      RunAppend(a[1..], b, m);
      RunCons(a[0], a[1..], m);
      RunCons(a[0], a[1..] + b, m);
      Grouped(S.Step(a[0], m).trace, S.Run(a[1..], m).trace, S.Run(b, m).trace);
    }
  }

  /** A conditional does what its branch does, and then the commands behind it follow. */
  lemma ConditionalRuns(t: S.Test, a: seq<S.Command>, b: seq<S.Command>, rest: seq<S.Command>, m: S.Message)
    ensures S.Run([S.If(t, a, b)] + rest, m) == S.Run((if S.Eval(t, m) then a else b) + rest, m)
  {
    var c := S.If(t, a, b);
    assert S.Step(c, m) == if S.Eval(t, m) then S.Run(a, m) else S.Run(b, m);
    hide S.Run, S.Step, S.Eval;
    RunCons(c, rest, m);
    RunAppend(a, rest, m);
    RunAppend(b, rest, m);
  }

  // ----- names that leave whole commands -----

  /** The commands a name leaves, when it leaves whole ones. */
  function Leaves(r: Rule): Option<seq<S.Command>> {
    if !Proper(Noise(r)) then None else
    var trees := S.ParseTrees(Noise(r));
    if trees.Some? then S.ReadCommands(trees.value) else None
  }

  predicate Complete(rs: seq<Rule>) {
    forall r :: r in rs ==> Leaves(r).Some?
  }

  function NamedTrees(rs: seq<Rule>, mailboxes: seq<Mailbox>): seq<S.Tree>
    requires Complete(rs)
  {
    if rs == [] then []
    else
      assert rs[0] in rs;
      S.ParseTrees(Noise(rs[0])).value + ([BlockTree(rs[0], mailboxes)] + NamedTrees(rs[1..], mailboxes))
  }

  function NamedCommands(rs: seq<Rule>, mailboxes: seq<Mailbox>): seq<S.Command>
    requires Complete(rs)
  {
    if rs == [] then []
    else
      assert rs[0] in rs;
      Leaves(rs[0]).value + ([BlockCommand(rs[0], mailboxes)] + NamedCommands(rs[1..], mailboxes))
  }

  lemma CompleteParts(rs: seq<Rule>)
    requires rs != [] && Complete(rs)
    ensures Leaves(rs[0]).Some? && Complete(rs[1..])
  {
    hide Leaves;
    assert rs[0] in rs;
  }

  lemma LeavesTrees(r: Rule)
    requires Leaves(r).Some?
    ensures Proper(Noise(r)) && S.ParseTrees(Noise(r)).Some?
    ensures S.ReadCommands(S.ParseTrees(Noise(r)).value) == Leaves(r)
  {
    hide Noise, S.ParseTrees, S.ReadCommands, Proper;
  }

  /** Tokens of whole commands in front of a block. */
  lemma ParseNamed(noise: seq<S.Token>, t: S.Tree, rest: seq<S.Token>)
    requires S.ParseTrees(noise).Some? && SoundTree(t) && S.ParseTrees(rest).Some?
    ensures S.ParseTrees(noise + (PrintTree(t) + rest)) ==
      Some(S.ParseTrees(noise).value + ([t] + S.ParseTrees(rest).value))
  {
    assert SoundTrees([t]) by { hide SoundTree; }
    hide *;
    TreesPrint(noise);
    PrintOne(t);
    ParseTreesOf([t], rest);
    ParseTreesOf(S.ParseTrees(noise).value, PrintTree(t) + rest);
  }

  /** The grammar has the names' commands and the blocks by turns. */
  lemma {:induction false} NamedParse(rs: seq<Rule>, mailboxes: seq<Mailbox>)
    requires AllEmitted(rs, mailboxes) && Complete(rs)
    ensures S.ParseTrees(BlocksLex(rs, mailboxes)) == Some(NamedTrees(rs, mailboxes))
  {
    if rs == [] {
      assert S.ParseTrees([]) == Some([]);
    } else {
      assert AllEmitted(rs[1..], mailboxes) by { hide Emitted; }
      hide AllEmitted, Emitted, Complete, Leaves, BlocksLex, BlockTree, BlockTokens, Noise, Proper, ConditionList,
          S.ParseTrees, PrintTree, SoundTree;
      CompleteParts(rs);
      LeavesTrees(rs[0]);
      NamedParse(rs[1..], mailboxes);
      BlocksLexCons(rs, mailboxes);
      PrintBlock(rs[0], mailboxes);
      ParseNamed(Noise(rs[0]), BlockTree(rs[0], mailboxes), BlocksLex(rs[1..], mailboxes));
    }
  }

  lemma NothingGoesOn(ts: seq<S.Tree>)
    requires S.ReadCommands(ts).Some?
    ensures ts != [] ==> !S.GoesOn(ts[0])
  {
  }

  lemma {:induction false} NamedRead(rs: seq<Rule>, mailboxes: seq<Mailbox>)
    requires Complete(rs)
    ensures S.ReadCommands(NamedTrees(rs, mailboxes)) == Some(NamedCommands(rs, mailboxes))
  {
    if rs == [] {
      assert S.ReadCommands([]) == Some([]);
    } else {
      hide Complete, Leaves, BlockTree, BlockCommand, Noise, S.ParseTrees, S.ReadCommands;
      CompleteParts(rs);
      LeavesTrees(rs[0]);
      NamedRead(rs[1..], mailboxes);
      var rest := NamedTrees(rs[1..], mailboxes);
      NothingGoesOn(rest);
      ReadAnotherBlock(rs[0], mailboxes, rest);
      var block := [BlockTree(rs[0], mailboxes)] + rest;
      NothingGoesOn(block);
      ReadAppend(S.ParseTrees(Noise(rs[0])).value, block);
    }
  }

  // ----- what the script does -----

  /** The rules applied one after the other, each emitted one behind the commands its name leaves. */
  function ApplyNamed(rules: seq<Rule>, mailboxes: seq<Mailbox>, m: S.Message): seq<S.Action>
    requires Complete(EmittedRules(rules, mailboxes))
  {
    if rules == [] then []
    else if !Emitted(rules[0], mailboxes) then ApplyNamed(rules[1..], mailboxes, m)
    else
      CompleteParts(EmittedRules(rules, mailboxes));
      EmittedCons(rules, mailboxes);
      var left := S.Run(Leaves(rules[0]).value, m);
      if left.stopped then left.trace
      else left.trace + Followed(rules[0], mailboxes, m, ApplyNamed(rules[1..], mailboxes, m))
  }

  /** What a rule does, and then the actions that follow unless it fires and stops. */
  function Followed(r: Rule, mailboxes: seq<Mailbox>, m: S.Message, more: seq<S.Action>): seq<S.Action> {
    if !Fires(r, m) then more else if r.actions.stop then Effects(r, mailboxes) else Effects(r, mailboxes) + more
  }

  lemma NamedFirst(rules: seq<Rule>, mailboxes: seq<Mailbox>, m: S.Message)
    requires rules != [] && Emitted(rules[0], mailboxes) && Complete(EmittedRules(rules, mailboxes))
    ensures Leaves(rules[0]).Some? && Complete(EmittedRules(rules[1..], mailboxes))
    ensures var left := S.Run(Leaves(rules[0]).value, m);
      ApplyNamed(rules, mailboxes, m) == if left.stopped then left.trace
        else left.trace + Followed(rules[0], mailboxes, m, ApplyNamed(rules[1..], mailboxes, m))
  {
    EmittedCons(rules, mailboxes);
    CompleteParts(EmittedRules(rules, mailboxes));
    hide Emitted, Complete, EmittedRules, Leaves, Followed, S.Run;
  }

  lemma RunFollowed(r: Rule, mailboxes: seq<Mailbox>, m: S.Message, more: seq<S.Command>)
    requires Emitted(r, mailboxes)
    ensures S.Run([BlockCommand(r, mailboxes)] + more, m).trace == Followed(r, mailboxes, m, S.Run(more, m).trace)
  {
    hide Emitted, BlockCommand, Fires, Effects, S.Run, S.Step;
    StepBlock(r, mailboxes, m);
    RunCons(BlockCommand(r, mailboxes), more, m);
  }

  lemma EmittedCons(rules: seq<Rule>, mailboxes: seq<Mailbox>)
    requires rules != [] && Emitted(rules[0], mailboxes)
    ensures var rs := EmittedRules(rules, mailboxes);
      rs != [] && rs[0] == rules[0] && rs[1..] == EmittedRules(rules[1..], mailboxes)
  {
    hide Emitted;
  }

  lemma {:induction false} RunNamed(rules: seq<Rule>, mailboxes: seq<Mailbox>, m: S.Message)
    requires Complete(EmittedRules(rules, mailboxes))
    ensures S.Run(NamedCommands(EmittedRules(rules, mailboxes), mailboxes), m).trace == ApplyNamed(rules, mailboxes, m)
  {
    if rules == [] {
      assert S.Run([], m).trace == [];
    } else if !Emitted(rules[0], mailboxes) {
      assert EmittedRules(rules, mailboxes) == EmittedRules(rules[1..], mailboxes);
      hide *;
      RunNamed(rules[1..], mailboxes, m);
      SkipNamed(rules, mailboxes, m);
    } else {
      var r, rs := rules[0], EmittedRules(rules, mailboxes);
      EmittedCons(rules, mailboxes);
      NamedFirst(rules, mailboxes, m);
      hide Leaves, BlockCommand, Emitted, Complete, EmittedRules, S.Run, ApplyNamed, Followed;
      RunNamed(rules[1..], mailboxes, m);
      var more := NamedCommands(rs[1..], mailboxes);
      RunFollowed(r, mailboxes, m, more);
      RunAppend(Leaves(r).value, [BlockCommand(r, mailboxes)] + more, m);
    }
  }

  lemma SkipNamed(rules: seq<Rule>, mailboxes: seq<Mailbox>, m: S.Message)
    requires rules != [] && !Emitted(rules[0], mailboxes) && Complete(EmittedRules(rules, mailboxes))
    requires EmittedRules(rules, mailboxes) == EmittedRules(rules[1..], mailboxes)
    ensures ApplyNamed(rules, mailboxes, m) == ApplyNamed(rules[1..], mailboxes, m)
  {
    hide Emitted, Complete, EmittedRules, Leaves, Fires, Effects;
  }

  /** Compiler correctness for names that leave whole commands, or none: the script performs the action trace of the
      rules with those commands, each set in front of its rule. */
  lemma CompilerNamed(rules: seq<Rule>, mailboxes: seq<Mailbox>, m: S.Message)
    requires Compile(rules, mailboxes).Script? && Complete(EmittedRules(rules, mailboxes))
    ensures var read := S.ReadScript(Compile(rules, mailboxes).text);
      read.Some? && S.Run(read.value, m).trace == ApplyNamed(rules, mailboxes, m)
  {
    var rs := EmittedRules(rules, mailboxes);
    assert Compile(rules, mailboxes).text == ScriptText(rs, mailboxes) by {
      hide ScriptText, EmittedRules, FirstFailing;
    }
    hide *;
    EmittedRulesEmitted(rules, mailboxes);
    NamedParse(rs, mailboxes);
    NamedRead(rs, mailboxes);
    ScriptReads(rs, mailboxes, NamedTrees(rs, mailboxes), NamedCommands(rs, mailboxes));
    RunNamed(rules, mailboxes, m);
    RequireRuns(Capabilities(rs), NamedCommands(rs, mailboxes), m);
  }

  lemma RequireRuns(caps: seq<string>, cmds: seq<S.Command>, m: S.Message)
    ensures S.Run([S.Require(caps)] + cmds, m).trace == S.Run(cmds, m).trace
  {
    assert ([S.Require(caps)] + cmds)[1..] == cmds;
  }

  // ----- names of these kinds -----

  /** A quiet name leaves nothing. */
  lemma QuietLeavesNothing(r: Rule)
    requires QuietName(r)
    ensures Leaves(r) == Some([])
  {
    QuietIsNoNoise(r);
    hide Noise, QuietName;
    assert S.ParseTrees([]) == Some([]) && S.ReadCommands([]) == Some([]);
  }

  /** With quiet names, the rules are applied as they are. */
  lemma {:induction false} QuietRulesApply(rules: seq<Rule>, mailboxes: seq<Mailbox>, m: S.Message)
    requires QuietNames(EmittedRules(rules, mailboxes))
    ensures Complete(EmittedRules(rules, mailboxes))
    ensures ApplyNamed(rules, mailboxes, m) == ApplyRules(rules, mailboxes, m)
  {
    assert Complete(EmittedRules(rules, mailboxes)) by {
      hide QuietName, Leaves, EmittedRules;
      forall r | r in EmittedRules(rules, mailboxes) ensures Leaves(r).Some? {
        QuietLeavesNothing(r);
      }
    }
    if rules != [] {
      var r := rules[0];
      FiringNeeds(r, m);
      EffectsOfNothing(r, mailboxes);
      assert EmittedRules(rules, mailboxes) ==
        (if Emitted(r, mailboxes) then [r] else []) + EmittedRules(rules[1..], mailboxes);
      assert QuietNames(EmittedRules(rules[1..], mailboxes)) by { hide QuietName, Emitted, EmittedRules; }
      QuietRulesApply(rules[1..], mailboxes, m);
      if Emitted(r, mailboxes) {
        assert QuietName(r) by { assert r in EmittedRules(rules, mailboxes); hide QuietName, Emitted; }
        QuietLeavesNothing(r);
        assert S.Run([], m) == S.Outcome([], false);
      }
      hide Fires, Effects, QuietName, Leaves, HasCondition, StepList, S.Run;
    }
  }

  lemma BracketLexes()
    ensures Silent("/* a */\n")
  {
    var s := "/* a */\n";
    CommentCoversText();
    assert S.CommentOpens(s);
    assert s[2..] == " a */\n";
    assert Silent("\n");
  }

  lemma CommentCoversText()
    ensures S.AfterComment(" a */\n") == Some("\n")
  {
    hide S.AfterComment;
    AfterCommentSkips(' ', "a */\n");
    AfterCommentSkips('a', " */\n");
    AfterCommentSkips(' ', "*/\n");
    AfterCommentEnds("\n");
    assert [' '] + "*/\n" == " */\n" && ['a'] + " */\n" == "a */\n" && [' '] + "a */\n" == " a */\n";
    assert "*/" + "\n" == "*/\n";
  }

  /** A bracket comment on a later line is no harm. */
  lemma BracketNameIsQuiet(r: Rule)
    requires TrimSpace(r.name) == "x\n" + "/* a */"
    ensures QuietName(r)
  {
    BracketLexes();
    AfterLineSkips("x", "/* a */\n");
    hide Silent, TrimSpace, S.AfterLine;
    assert "x\n" + "/* a */" + ['\n'] == "x" + ("\n" + "/* a */\n");
  }

  /** A second line that is one command without arguments. */
  lemma WordNoise(r: Rule, word: string)
    requires LowerWord(word) && word != "text" && TrimSpace(r.name) == "x\n" + word + ";"
    ensures Noise(r) == [S.Ident(word), S.Semi]
  {
    var name := TrimSpace(r.name);
    var line := word + ";\n";
    hide TrimSpace, S.Lex;
    assert forall i :: 0 <= i < |name| ==> name[i] != '\\' && name[i] != '"';
    EscapePlain(name);
    AfterLineSkips("x", line);
    assert name + ['\n'] == "x" + ("\n" + line);
    LexEmpty();
    LexWord(word, [';'] + (['\n'] + ""));
    LexPunctuation(';', ['\n'] + "");
    LexBlank('\n', "");
    assert word + ([';'] + (['\n'] + "")) == line;
  }

  lemma WordLeaves(r: Rule, word: string, c: S.Command)
    requires LowerWord(word) && word != "text" && TrimSpace(r.name) == "x\n" + word + ";"
    requires S.ReadSimple(S.Phrase(word, [], S.NoTest)) == Some(c)
    ensures Leaves(r) == Some([c])
  {
    var p := S.Phrase(word, [], S.NoTest);
    var t := S.Simple(p);
    WordNoise(r, word);
    hide Noise, TrimSpace, S.ReadSimple, LowerWord;
    PrintWord(word);
    OneSimple(t, c);
    hide S.ParseTrees, S.ReadCommands, PrintTree, PrintTrees, SoundTrees;
    ParseTreesOf([t], []);
    PrintOne(t);
    assert PrintTree(t) + [] == PrintTree(t) && [t] + [] == [t];
  }

  lemma PrintWord(word: string)
    ensures var t := S.Simple(S.Phrase(word, [], S.NoTest));
      PrintTree(t) == [S.Ident(word), S.Semi] && SoundTrees([t])
  {
    assert PrintArguments([]) == [];
  }

  lemma OneSimple(t: S.Tree, c: S.Command)
    requires t.Simple? && S.ReadSimple(t.phrase) == Some(c)
    ensures S.ReadCommands([t]) == Some([c]) && S.ParseTrees([]) == Some([])
  {
    assert [t][1..] == [] && S.ReadCommands([]) == Some([]) && [c] + [] == [c];
    hide S.ReadSimple;
  }

  lemma OneCommand(c: S.Command, m: S.Message)
    ensures S.Run([c], m) == S.Step(c, m)
  {
    hide S.Step;
    RunCons(c, [], m);
    assert [c] + [] == [c];
    assert S.Run([], m) == S.Outcome([], false);
    var o := S.Step(c, m);
    assert o.trace + [] == o.trace;
  }

  /** A first rule whose name leaves one command: what the script does begins with it. */
  lemma WordRuns(r: Rule, c: S.Command, rules: seq<Rule>, mailboxes: seq<Mailbox>, m: S.Message)
    requires Emitted(r, mailboxes) && Leaves(r) == Some([c])
    requires Complete(EmittedRules([r] + rules, mailboxes)) && Compile([r] + rules, mailboxes).Script?
    ensures var read := S.ReadScript(Compile([r] + rules, mailboxes).text);
      && read.Some?
      && var first, trace := S.Step(c, m), S.Run(read.value, m).trace;
      if first.stopped then trace == first.trace else first.trace <= trace
  {
    var all := [r] + rules;
    assert all[0] == r;
    hide *;
    OneCommand(c, m);
    NamedFirst(all, mailboxes, m);
    CompilerNamed(all, mailboxes, m);
  }

  /** A name that discards: whatever the message, and whether the rule fires or not. */
  lemma NameDiscards(r: Rule, rules: seq<Rule>, mailboxes: seq<Mailbox>, m: S.Message)
    requires Emitted(r, mailboxes) && TrimSpace(r.name) == "x\n" + "discard" + ";"
    requires Complete(EmittedRules([r] + rules, mailboxes)) && Compile([r] + rules, mailboxes).Script?
    ensures var read := S.ReadScript(Compile([r] + rules, mailboxes).text);
      read.Some? && [S.Discarded] <= S.Run(read.value, m).trace
  {
    hide Emitted, TrimSpace, Complete, EmittedRules, Compile, S.ReadScript, S.Run, Leaves;
    WordLeaves(r, "discard", S.Discard);
    WordRuns(r, S.Discard, rules, mailboxes, m);
  }

  /** A name that ends the run: neither its rule nor any behind it does anything. */
  lemma NameStops(r: Rule, rules: seq<Rule>, mailboxes: seq<Mailbox>, m: S.Message)
    requires Emitted(r, mailboxes) && TrimSpace(r.name) == "x\n" + "stop" + ";"
    requires Complete(EmittedRules([r] + rules, mailboxes)) && Compile([r] + rules, mailboxes).Script?
    ensures var read := S.ReadScript(Compile([r] + rules, mailboxes).text);
      read.Some? && S.Run(read.value, m).trace == []
  {
    hide Emitted, TrimSpace, Complete, EmittedRules, Compile, S.ReadScript, S.Run, Leaves;
    WordLeaves(r, "stop", S.Stop);
    WordRuns(r, S.Stop, rules, mailboxes, m);
  }
}
