/** The whole script: its require line, and that it parses back to exactly the intended commands. */
module MailRulesTheorems {
  import opened Text
  import opened Mailboxes
  import opened MailRules
  import S = Sieve
  import opened SieveGrammar
  import opened SieveLexing
  import opened MailRulesProof

  // ----- the require line -----

  predicate PlainStrings(cs: seq<string>) {
    forall i, j :: 0 <= i < |cs| && 0 <= j < |cs[i]| ==> cs[i][j] != '\\' && cs[i][j] != '"'
  }

  function RequireTree(cs: seq<string>): S.Tree {
    S.Simple(S.Phrase("require", [S.ListArg(cs)], S.NoTest))
  }

  lemma {:induction false} LexItems(cs: seq<string>, rest: string)
    requires cs != [] && PlainStrings(cs)
    ensures S.Lex(Join(Literals(cs), ", ") + ([']'] + rest)) == PrintItems(cs) + S.Lex(rest)
  {
    hide S.Lex;
    if |cs| == 1 {
      LexPlainString(cs[0], [']'] + rest);
      LexPunctuation(']', rest);
    } else {
      var tail := Join(Literals(cs[1..]), ", ") + ([']'] + rest);
      assert Literals(cs)[1..] == Literals(cs[1..]);
      var r1 := [','] + ([' '] + tail);
      assert Join(Literals(cs), ", ") + ([']'] + rest) == "\"" + cs[0] + "\"" + r1;
      LexPlainString(cs[0], r1);
      LexPunctuation(',', [' '] + tail);
      LexBlank(' ', tail);
      assert forall i :: 0 <= i < |cs[1..]| ==> cs[1..][i] == cs[i + 1];
      LexItems(cs[1..], rest);
    }
  }

  lemma PrintRequire(cs: seq<string>)
    requires cs != []
    ensures PrintTree(RequireTree(cs)) == [S.Ident("require"), S.LBrack] + PrintItems(cs) + [S.Semi]
    ensures SoundTree(RequireTree(cs))
  {
    hide PrintItems;
    var args := [S.ListArg(cs)];
    assert args[1..] == [] && PrintArguments([]) == [];
    assert PrintArguments(args) == [S.LBrack] + PrintItems(cs);
  }

  lemma LexRequire(cs: seq<string>, rest: string)
    requires cs != [] && PlainStrings(cs)
    ensures S.Lex("require [" + Join(Literals(cs), ", ") + "];" + rest) == PrintTree(RequireTree(cs)) + S.Lex(rest)
  {
    hide S.Lex, Join, PrintItems, PrintTree;
    PrintRequire(cs);
    var r1 := Join(Literals(cs), ", ") + ([']'] + ([';'] + rest));
    assert "require [" + Join(Literals(cs), ", ") + "];" + rest == "require" + ([' '] + (['['] + r1));
    LexWord("require", [' '] + (['['] + r1));
    LexBlank(' ', ['['] + r1);
    LexPunctuation('[', r1);
    LexItems(cs, [';'] + rest);
    LexPunctuation(';', rest);
  }

  // ----- capabilities -----

  lemma {:induction false} InOrderMembers(order: seq<string>, wanted: set<string>)
    ensures forall c :: c in InOrder(order, wanted) <==> c in order && c in wanted
    ensures (forall i, j :: 0 <= i < j < |order| ==> order[i] != order[j]) ==>
              forall i, j :: 0 <= i < j < |InOrder(order, wanted)| ==>
                InOrder(order, wanted)[i] != InOrder(order, wanted)[j]
  {
    if order != [] {
      InOrderMembers(order[1..], wanted);
      assert order == [order[0]] + order[1..];
    }
  }

  lemma {:induction false} NeedsKnown(rs: seq<Rule>)
    ensures forall c :: c in Needs(rs) ==> c in CAPABILITY_ORDER
  {
    if rs != [] {
      NeedsKnown(rs[1..]);
      hide TrimActions, TrimConditions;
      assert RuleNeeds(rs[0]) <= {"fileinto", "imap4flags", "redirect", "body"};
      assert CAPABILITY_ORDER[0] == "fileinto" && CAPABILITY_ORDER[1] == "imap4flags"
          && CAPABILITY_ORDER[2] == "redirect" && CAPABILITY_ORDER[3] == "body";
    }
  }

  lemma CapabilityOrderDistinct()
    ensures forall i, j :: 0 <= i < j < |CAPABILITY_ORDER| ==> CAPABILITY_ORDER[i] != CAPABILITY_ORDER[j]
    ensures PlainStrings(CAPABILITY_ORDER)
  {
    assert CAPABILITY_ORDER[0][0] == 'f' && CAPABILITY_ORDER[1][0] == 'i' && CAPABILITY_ORDER[2][0] == 'r'
      && CAPABILITY_ORDER[3][0] == 'b';
  }

  /** The require line lists each needed capability once, or `fileinto` alone. */
  lemma CapabilitiesExact(rs: seq<Rule>)
    ensures var caps := Capabilities(rs);
      && caps != [] && PlainStrings(caps)
      && (forall i, j :: 0 <= i < j < |caps| ==> caps[i] != caps[j])
      && (Needs(rs) != {} ==> (set c | c in caps) == Needs(rs))
      && (Needs(rs) == {} ==> caps == ["fileinto"])
  {
    var listed := InOrder(CAPABILITY_ORDER, Needs(rs));
    InOrderMembers(CAPABILITY_ORDER, Needs(rs));
    NeedsKnown(rs);
    CapabilityOrderDistinct();
    assert forall c :: c in Needs(rs) ==> c in listed;
    if listed == [] {
      assert Needs(rs) == {};
      assert CAPABILITY_ORDER[0] == "fileinto";
    } else {
      assert listed[0] in listed;
      forall i | 0 <= i < |listed| ensures forall j :: 0 <= j < |listed[i]| ==>
        listed[i][j] != '\\' && listed[i][j] != '"' {
        assert listed[i] in CAPABILITY_ORDER;
      }
    }
  }

  // ----- the whole script -----

  lemma ManagedNoteIsComment()
    ensures MANAGED_NOTE[0] == '#' && '\n' !in MANAGED_NOTE[1..]
  {
    assert '\n' !in "# Managed by Despatch. ";
    assert '\n' !in "Edit structured rules ";
    assert '\n' !in "in Settings > Mail > Rules & Junk.";
  }

  lemma EmptyNoteIsComment()
    ensures EMPTY_NOTE[0] == '#' && '\n' !in EMPTY_NOTE[1..]
  {
    assert '\n' !in EMPTY_NOTE;
  }

  function LastLine(rs: seq<Rule>, mailboxes: seq<Mailbox>): string {
    if rs == [] then EMPTY_NOTE else Join(BlockTexts(rs, mailboxes), "\n\n")
  }

  lemma JoinScriptLines(line: string, note: string, last: string)
    ensures Join([line, "", note, last], "\n") == line + (['\n'] + (['\n'] + (note + "\n" + last)))
  {
    var l1 := ["", note, last];
    var l2 := [note, last];
    assert [line, "", note, last][1..] == l1 && l1[1..] == l2 && l2[1..] == [last];
    assert Join(l2, "\n") == note + "\n" + last;
    assert Join(l1, "\n") == "" + "\n" + Join(l2, "\n") == ['\n'] + Join(l2, "\n");
    assert line + "\n" + Join(l1, "\n") == line + (['\n'] + Join(l1, "\n"));
  }

  lemma LexLayout(caps: seq<string>, note: string, last: string)
    requires caps != [] && PlainStrings(caps)
    requires note != "" && note[0] == '#' && '\n' !in note[1..]
    ensures S.Lex(Join(["require [" + Join(Literals(caps), ", ") + "];", "", note, last], "\n")) ==
      PrintTree(RequireTree(caps)) + S.Lex(last)
  {
    hide S.Lex, PrintTree, Join;
    var line := "require [" + Join(Literals(caps), ", ") + "];";
    var tail := note + "\n" + last;
    var rest := ['\n'] + (['\n'] + tail);
    JoinScriptLines(line, note, last);
    LexRequire(caps, rest);
    LexBlank('\n', ['\n'] + tail);
    LexBlank('\n', tail);
    assert note == "#" + note[1..];
    LexComment(note[1..], last);
  }

  lemma LastLineLex(rs: seq<Rule>, mailboxes: seq<Mailbox>)
    ensures S.Lex(LastLine(rs, mailboxes)) == BlocksLex(rs, mailboxes)
  {
    hide S.Lex;
    if rs == [] {
      EmptyNoteIsComment();
      assert EMPTY_NOTE == "#" + EMPTY_NOTE[1..];
      LexLastComment(EMPTY_NOTE[1..]);
    }
  }

  /** The script is the require command and then the blocks. */
  lemma ScriptLex(rs: seq<Rule>, mailboxes: seq<Mailbox>)
    ensures S.Lex(ScriptText(rs, mailboxes)) == PrintTree(RequireTree(Capabilities(rs))) + BlocksLex(rs, mailboxes)
  {
    hide S.Lex, Join, Capabilities, BlocksLex, PrintTree;
    CapabilitiesExact(rs);
    ManagedNoteIsComment();
    LastLineLex(rs, mailboxes);
    LexLayout(Capabilities(rs), MANAGED_NOTE, LastLine(rs, mailboxes));
  }

  lemma ScriptParses(rs: seq<Rule>, mailboxes: seq<Mailbox>)
    ensures var trees := S.ParseTrees(BlocksLex(rs, mailboxes));
      S.Parse(ScriptText(rs, mailboxes)) ==
        if trees.Some? then Some([RequireTree(Capabilities(rs))] + trees.value) else None
  {
    hide S.ParseTrees, S.Lex, Capabilities, BlocksLex, ScriptText, PrintTree;
    ScriptLex(rs, mailboxes);
    CapabilitiesExact(rs);
    PrintRequire(Capabilities(rs));
    var one := [RequireTree(Capabilities(rs))];
    PrintOne(one[0]);
    ParseTreesOf(one, BlocksLex(rs, mailboxes));
  }

  lemma PrintOne(t: S.Tree)
    ensures PrintTrees([t]) == PrintTree(t)
  {
    hide PrintTree;
    assert [t][1..] == [] && PrintTrees([]) == [];
  }

  /** What the script says, from what stands behind its require line. */
  lemma ScriptReads(rs: seq<Rule>, mailboxes: seq<Mailbox>, trees: seq<S.Tree>, cmds: seq<S.Command>)
    requires S.ParseTrees(BlocksLex(rs, mailboxes)) == Some(trees) && S.ReadCommands(trees) == Some(cmds)
    ensures S.ReadScript(ScriptText(rs, mailboxes)) == Some([S.Require(Capabilities(rs))] + cmds)
  {
    hide S.ParseTrees, S.Lex, Capabilities, BlocksLex, ScriptText, S.ReadCommands, S.Parse;
    ScriptParses(rs, mailboxes);
    var caps := Capabilities(rs);
    var all := [RequireTree(caps)] + trees;
    assert all[0] == RequireTree(caps) && all[1..] == trees;
    assert S.IsRequire(all[0]);
    NoRequire(trees);
  }

  lemma NoRequire(trees: seq<S.Tree>)
    requires S.ReadCommands(trees).Some?
    ensures S.ReadTrees(trees) == S.ReadCommands(trees)
  {
    if trees != [] {
      RequireIsNoCommand(trees[0]);
    }
  }

  lemma RequireIsNoCommand(t: S.Tree)
    ensures S.IsRequire(t) ==> S.ReadSimple(t.phrase).None?
  {
  }

  /** Printer and parser are inverse: the emitted text reads back as the require line and one conditional block for
      each emitted rule, for arbitrary keys, mailboxes and addresses. */
  lemma ScriptParsesBack(rs: seq<Rule>, mailboxes: seq<Mailbox>)
    requires AllEmitted(rs, mailboxes) && QuietNames(rs)
    ensures S.Parse(ScriptText(rs, mailboxes)) ==
      Some([RequireTree(Capabilities(rs))] + BlockTrees(rs, mailboxes))
    ensures S.ReadScript(ScriptText(rs, mailboxes)) ==
      Some([S.Require(Capabilities(rs))] + BlockCommands(rs, mailboxes))
  {
    hide S.ParseTrees, Capabilities, BlockCommands, BlockTrees, BlocksLex, ScriptText, S.ReadScript, S.Parse,
        QuietNames, AllEmitted, S.ReadCommands;
    ScriptParses(rs, mailboxes);
    ParseBlocks(rs, mailboxes);
    ReadBlocks(rs, mailboxes);
    ScriptReads(rs, mailboxes, BlockTrees(rs, mailboxes), BlockCommands(rs, mailboxes));
  }

  predicate OneLineNames(rs: seq<Rule>) {
    forall r :: r in rs ==> '\n' !in TrimSpace(r.name)
  }

  /** Names on one line are enough for that. */
  lemma OneLineNamesParseBack(rs: seq<Rule>, mailboxes: seq<Mailbox>)
    requires AllEmitted(rs, mailboxes) && OneLineNames(rs)
    ensures S.ReadScript(ScriptText(rs, mailboxes)) ==
      Some([S.Require(Capabilities(rs))] + BlockCommands(rs, mailboxes))
  {
    hide Capabilities, BlockCommands, BlockTrees, ScriptText, S.ReadScript, S.Parse, AllEmitted, QuietName, TrimSpace;
    forall r | r in rs ensures QuietName(r) {
      OneLineIsQuiet(r);
    }
    ScriptParsesBack(rs, mailboxes);
  }
}
