/** The grammar of Sieve is unambiguous: parsing and printing are inverse, both ways. */
module SieveGrammar {
  import opened Text
  import opened Sieve

  // ----- printing -----

  function PrintItems(texts: seq<string>): seq<Token> {
    if texts == [] then []
    else if |texts| == 1 then [Str(texts[0]), RBrack]
    else [Str(texts[0]), Comma] + PrintItems(texts[1..])
  }

  function PrintArgument(a: Argument): seq<Token> {
    match a
    case TagArg(t) => [Tag(t)]
    case NumArg(n) => [Num(n)]
    case StrArg(s) => [Str(s)]
    case ListArg(l) => [LBrack] + PrintItems(l)
  }

  function PrintArguments(args: seq<Argument>): seq<Token> {
    if args == [] then [] else PrintArgument(args[0]) + PrintArguments(args[1..])
  }

  function PrintPhrase(p: Phrase): (ts: seq<Token>)
    ensures ts != [] && ts[0] == Ident(p.name)
    decreases p
  {
    [Ident(p.name)] + (PrintArguments(p.args) + (
      match p.tests
      case NoTest => []
      case OneTest(t) => PrintPhrase(t)
      case TestList(l) => [LParen] + PrintPhrases(l)))
  }

  function PrintPhrases(l: seq<Phrase>): seq<Token>
    decreases l
  {
    if l == [] then []
    else if |l| == 1 then PrintPhrase(l[0]) + [RParen]
    else PrintPhrase(l[0]) + ([Comma] + PrintPhrases(l[1..]))
  }

  function PrintTree(t: Tree): (ts: seq<Token>)
    ensures ts != []
    decreases t
  {
    match t
    case Simple(p) => PrintPhrase(p) + [Semi]
    case Compound(p, block) => PrintPhrase(p) + ([LBrace] + (PrintTrees(block) + [RBrace]))
  }

  function PrintTrees(trees: seq<Tree>): seq<Token>
    decreases trees
  {
    if trees == [] then [] else PrintTree(trees[0]) + PrintTrees(trees[1..])
  }

  /** Lists of strings and lists of tests are not empty. */
  predicate SoundArguments(args: seq<Argument>) {
    forall a :: a in args && a.ListArg? ==> a.texts != []
  }

  predicate SoundPhrase(p: Phrase)
    decreases p
  {
    SoundArguments(p.args) &&
    match p.tests
    case NoTest => true
    case OneTest(t) => SoundPhrase(t)
    case TestList(l) => l != [] && forall t :: t in l ==> SoundPhrase(t)
  }

  predicate SoundPhrases(l: seq<Phrase>) {
    forall t :: t in l ==> SoundPhrase(t)
  }

  lemma SoundParts(l: seq<Phrase>)
    requires l != []
    ensures SoundPhrases(l) <==> SoundPhrase(l[0]) && SoundPhrases(l[1..])
  {
    hide SoundPhrase;
    assert l == [l[0]] + l[1..];
  }

  predicate SoundTree(t: Tree)
    decreases t
  {
    SoundPhrase(t.phrase) && (t.Compound? ==> forall c :: c in t.block ==> SoundTree(c))
  }

  predicate SoundTrees(trees: seq<Tree>) {
    forall t :: t in trees ==> SoundTree(t)
  }

  /** What may follow a phrase: no token that could belong to it. */
  predicate EndsPhrase(rest: seq<Token>) {
    rest != [] && (rest[0] == Semi || rest[0] == LBrace || rest[0] == Comma || rest[0] == RParen)
  }

  // ----- parsing what was printed -----

  lemma ItemsByFirst(v: string, more: seq<Token>)
    ensures ParseStringItems([Str(v), RBrack] + more) == Done([v], more)
    ensures ParseStringItems([Str(v), Comma] + more) == Prepend(v, ParseStringItems(more))
  {
    var last, next := [Str(v), RBrack] + more, [Str(v), Comma] + more;
    assert last[2..] == more && next[2..] == more;
  }

  lemma ItemsShape(texts: seq<string>, rest: seq<Token>)
    requires texts != []
    ensures PrintItems(texts) + rest ==
      if |texts| == 1 then [Str(texts[0]), RBrack] + rest
      else [Str(texts[0]), Comma] + (PrintItems(texts[1..]) + rest)
  {
    if |texts| > 1 {
      Grouped([Str(texts[0]), Comma], PrintItems(texts[1..]), rest);
    }
  }

  lemma {:induction false} ParseItemsOf(texts: seq<string>, rest: seq<Token>)
    requires texts != []
    ensures ParseStringItems(PrintItems(texts) + rest) == Done(texts, rest)
  {
    hide ParseStringItems, PrintItems;
    ItemsShape(texts, rest);
    if |texts| == 1 {
      ItemsByFirst(texts[0], rest);
      assert [texts[0]] == texts;
    } else {
      ItemsByFirst(texts[0], PrintItems(texts[1..]) + rest);
      ParseItemsOf(texts[1..], rest);
      assert [texts[0]] + texts[1..] == texts;
    }
  }

  /** Tokens that begin no argument. */
  predicate NoArgument(rest: seq<Token>) {
    rest == [] || !(rest[0].Tag? || rest[0].Num? || rest[0].Str? || rest[0] == LBrack)
  }

  lemma ParseFirstArgument(a: Argument, rest: seq<Token>)
    requires a.ListArg? ==> a.texts != []
    ensures ParseArguments(PrintArgument(a) + rest) == Prepend(a, ParseArguments(rest))
  {
    var ts := PrintArgument(a) + rest;
    hide ParseStringItems, PrintItems;
    if a.ListArg? {
      assert ts[1..] == PrintItems(a.texts) + rest;
      ParseItemsOf(a.texts, rest);
    } else {
      assert ts[1..] == rest;
    }
  }

  lemma {:induction false} ParseArgumentsOf(args: seq<Argument>, rest: seq<Token>)
    requires SoundArguments(args) && NoArgument(rest)
    ensures ParseArguments(PrintArguments(args) + rest) == Done(args, rest)
  {
    if args == [] {
      assert PrintArguments(args) + rest == rest;
    } else {
      var more := PrintArguments(args[1..]) + rest;
      assert PrintArguments(args) + rest == PrintArgument(args[0]) + more;
      assert args[0] in args;
      assert forall a :: a in args[1..] ==> a in args;
      ParseFirstArgument(args[0], more);
      hide ParseArguments, PrintArgument;
      ParseArgumentsOf(args[1..], rest);
      assert [args[0]] + args[1..] == args;
    }
  }

  /** The tokens behind the arguments of a phrase. */
  function PrintTests(tests: Tests): seq<Token> {
    match tests
    case NoTest => []
    case OneTest(t) => PrintPhrase(t)
    case TestList(l) => [LParen] + PrintPhrases(l)
  }

  lemma PhraseShape(p: Phrase, rest: seq<Token>)
    ensures PrintPhrase(p) + rest == [Ident(p.name)] + (PrintArguments(p.args) + (PrintTests(p.tests) + rest))
  {
    hide PrintArguments;
    var args, tests := PrintArguments(p.args), PrintTests(p.tests);
    assert PrintPhrase(p) == [Ident(p.name)] + (args + tests);
  }

  /** A phrase by what stands behind its arguments. */
  lemma PhraseByTail(ts: seq<Token>, args: seq<Argument>, tail: seq<Token>)
    requires ts != [] && ts[0].Ident? && ParseArguments(ts[1..]) == Done(args, tail) && tail != []
    ensures tail[0].Ident? && ParsePhrase(tail).Done? ==>
      var t := ParsePhrase(tail); ParsePhrase(ts) == Done(Phrase(ts[0].name, args, OneTest(t.value)), t.rest)
    ensures tail[0] == LParen && ParsePhrases(tail[1..]).Done? ==>
      var l := ParsePhrases(tail[1..]); ParsePhrase(ts) == Done(Phrase(ts[0].name, args, TestList(l.value)), l.rest)
    ensures EndsPhrase(tail) ==> ParsePhrase(ts) == Done(Phrase(ts[0].name, args, NoTest), tail)
  {
    hide ParseArguments, ParsePhrases;
  }

  lemma TestsBegin(tests: Tests, rest: seq<Token>)
    requires EndsPhrase(rest)
    ensures NoArgument(PrintTests(tests) + rest)
  {
    hide PrintPhrase, PrintPhrases;
  }

  lemma {:induction false} ParsePhraseOf(p: Phrase, rest: seq<Token>)
    requires SoundPhrase(p) && EndsPhrase(rest)
    ensures ParsePhrase(PrintPhrase(p) + rest) == Done(p, rest)
    decreases p, 1
  {
    var tail := PrintTests(p.tests) + rest;
    var ts := PrintPhrase(p) + rest;
    hide PrintArguments, ParseArguments, PrintPhrase, ParsePhrase, ParsePhrases, PrintPhrases;
    PhraseShape(p, rest);
    assert ts[1..] == PrintArguments(p.args) + tail;
    TestsBegin(p.tests, rest);
    ParseArgumentsOf(p.args, tail);
    PhraseByTail(ts, p.args, tail);
    match p.tests {
      case NoTest =>
        assert tail == rest;
      case OneTest(t) =>
        ParsePhraseOf(t, rest);
      case TestList(l) =>
        assert tail[1..] == PrintPhrases(l) + rest;
        ParsePhrasesOf(l, rest);
    }
  }

  lemma PhrasesByFirst(ts: seq<Token>, t: Phrase, rest: seq<Token>)
    requires ParsePhrase(ts) == Done(t, rest) && rest != []
    ensures rest[0] == RParen ==> ParsePhrases(ts) == Done([t], rest[1..])
    ensures rest[0] == Comma ==> ParsePhrases(ts) == Prepend(t, ParsePhrases(rest[1..]))
  {
    hide ParsePhrase;
  }

  /** The tokens of the first test of a list, and those behind it. */
  lemma PhrasesShape(l: seq<Phrase>, rest: seq<Token>)
    requires l != []
    ensures PrintPhrases(l) + rest == PrintPhrase(l[0])
      + (if |l| == 1 then [RParen] + rest else [Comma] + (PrintPhrases(l[1..]) + rest))
  {
    hide PrintPhrase;
    if |l| > 1 {
      Grouped(PrintPhrase(l[0]), [Comma] + PrintPhrases(l[1..]), rest);
      Grouped([Comma], PrintPhrases(l[1..]), rest);
    } else {
      Grouped(PrintPhrase(l[0]), [RParen], rest);
    }
  }

  lemma Grouped<T>(a: seq<T>, b: seq<T>, c: seq<T>)
    ensures (a + b) + c == a + (b + c)
  {
  }

  lemma {:induction false} ParsePhrasesOf(l: seq<Phrase>, rest: seq<Token>)
    requires l != [] && SoundPhrases(l)
    ensures ParsePhrases(PrintPhrases(l) + rest) == Done(l, rest)
    decreases l, 0
  {
    var ts := PrintPhrases(l) + rest;
    hide ParsePhrase, PrintPhrase, SoundPhrase, ParsePhrases, PrintPhrases, SoundPhrases;
    PhrasesShape(l, rest);
    SoundParts(l);
    if |l| == 1 {
      ParsePhraseOf(l[0], [RParen] + rest);
      PhrasesByFirst(ts, l[0], [RParen] + rest);
      assert ([RParen] + rest)[1..] == rest && [l[0]] == l;
    } else {
      var more := PrintPhrases(l[1..]) + rest;
      ParsePhraseOf(l[0], [Comma] + more);
      PhrasesByFirst(ts, l[0], [Comma] + more);
      assert ([Comma] + more)[1..] == more;
      ParsePhrasesOf(l[1..], rest);
      assert [l[0]] + l[1..] == l;
    }
  }

  lemma TreeShape(t: Tree, rest: seq<Token>)
    ensures PrintTree(t) + rest == PrintPhrase(t.phrase)
      + (if t.Simple? then [Semi] + rest else [LBrace] + (PrintTrees(t.block) + ([RBrace] + rest)))
  {
    hide PrintPhrase, PrintTrees;
    if t.Simple? {
      Grouped(PrintPhrase(t.phrase), [Semi], rest);
    } else {
      Grouped(PrintPhrase(t.phrase), [LBrace] + (PrintTrees(t.block) + [RBrace]), rest);
      Grouped([LBrace], PrintTrees(t.block) + [RBrace], rest);
      Grouped(PrintTrees(t.block), [RBrace], rest);
    }
  }

  lemma TreeByPhrase(ts: seq<Token>, p: Phrase, rest: seq<Token>)
    requires ParsePhrase(ts) == Done(p, rest) && rest != []
    ensures rest[0] == Semi ==> ParseTree(ts) == Done(Simple(p), rest[1..])
    ensures rest[0] == LBrace && ParseBlock(rest[1..]).Done? ==>
      var b := ParseBlock(rest[1..]); ParseTree(ts) == Done(Compound(p, b.value), b.rest)
  {
    hide ParsePhrase, ParseBlock;
  }

  lemma {:induction false} ParseTreeOf(t: Tree, rest: seq<Token>)
    requires SoundTree(t)
    ensures ParseTree(PrintTree(t) + rest) == Done(t, rest)
    decreases t, 1
  {
    hide ParsePhrase, PrintPhrase, SoundPhrase, PrintTree, ParseTree, PrintTrees, ParseBlock;
    var ts := PrintTree(t) + rest;
    TreeShape(t, rest);
    if t.Simple? {
      ParsePhraseOf(t.phrase, [Semi] + rest);
      TreeByPhrase(ts, t.phrase, [Semi] + rest);
      assert ([Semi] + rest)[1..] == rest;
    } else {
      var inner := PrintTrees(t.block) + ([RBrace] + rest);
      ParsePhraseOf(t.phrase, [LBrace] + inner);
      TreeByPhrase(ts, t.phrase, [LBrace] + inner);
      assert ([LBrace] + inner)[1..] == inner;
      ParseBlockOf(t.block, rest);
    }
  }

  lemma BlockByFirst(ts: seq<Token>, t: Tree, rest: seq<Token>)
    requires ts != [] && ts[0] != RBrace && ParseTree(ts) == Done(t, rest)
    ensures ParseBlock(ts) == Prepend(t, ParseBlock(rest))
  {
    hide ParseTree;
  }

  lemma TreesShape(trees: seq<Tree>, rest: seq<Token>)
    requires trees != []
    ensures PrintTrees(trees) + rest == PrintTree(trees[0]) + (PrintTrees(trees[1..]) + rest)
  {
    hide PrintTree;
    Grouped(PrintTree(trees[0]), PrintTrees(trees[1..]), rest);
  }

  lemma SoundTreesParts(trees: seq<Tree>)
    requires trees != []
    ensures SoundTrees(trees) <==> SoundTree(trees[0]) && SoundTrees(trees[1..])
  {
    hide SoundTree;
    assert trees == [trees[0]] + trees[1..];
  }

  lemma {:induction false} ParseBlockOf(block: seq<Tree>, rest: seq<Token>)
    requires SoundTrees(block)
    ensures ParseBlock(PrintTrees(block) + ([RBrace] + rest)) == Done(block, rest)
    decreases block, 0
  {
    var ts := PrintTrees(block) + ([RBrace] + rest);
    if block == [] {
      assert ts == [RBrace] + rest;
    } else {
      var more := PrintTrees(block[1..]) + ([RBrace] + rest);
      hide *;
      TreeBegins(block[0]);
      TreesShape(block, [RBrace] + rest);
      SoundTreesParts(block);
      ParseTreeOf(block[0], more);
      BlockByFirst(ts, block[0], more);
      ParseBlockOf(block[1..], rest);
      assert [block[0]] + block[1..] == block;
    }
  }

  lemma TreeBegins(t: Tree)
    ensures PrintTree(t)[0].Ident?
  {
    hide PrintPhrase;
  }

  lemma ParseTreesFirst(ts: seq<Token>, t: Tree, tail: seq<Token>)
    requires ts != [] && ParseTree(ts) == Done(t, tail)
    ensures var more := ParseTrees(tail); ParseTrees(ts) == if more.Some? then Some([t] + more.value) else None
  {
    hide ParseTree;
  }

  /** Commands that are printed and then anything: they are read back, then the rest. */
  lemma {:induction false} ParseTreesOf(trees: seq<Tree>, rest: seq<Token>)
    requires SoundTrees(trees)
    ensures var more := ParseTrees(rest);
      ParseTrees(PrintTrees(trees) + rest) == if more.Some? then Some(trees + more.value) else None
  {
    var ts := PrintTrees(trees) + rest;
    var more := ParseTrees(rest);
    if trees == [] {
      assert ts == rest;
      assert more.Some? ==> trees + more.value == more.value;
    } else {
      var tail := PrintTrees(trees[1..]) + rest;
      hide *;
      TreesShape(trees, rest);
      SoundTreesParts(trees);
      ParseTreeOf(trees[0], tail);
      ParseTreesFirst(ts, trees[0], tail);
      ParseTreesOf(trees[1..], rest);
      if more.Some? {
        Grouped([trees[0]], trees[1..], more.value);
        assert [trees[0]] + trees[1..] == trees;
      }
    }
  }

  // ----- printing what was parsed -----

  lemma {:induction false} ItemsPrint(ts: seq<Token>)
    requires ParseStringItems(ts).Done?
    ensures var r := ParseStringItems(ts); r.value != [] && ts == PrintItems(r.value) + r.rest
  {
    assert ts == [ts[0], ts[1]] + ts[2..];
    if ts[1] == Comma {
      ItemsPrint(ts[2..]);
      var r := ParseStringItems(ts[2..]);
      assert ([ts[0].value] + r.value)[1..] == r.value;
    }
  }

  lemma SoundPrepend(a: Argument, args: seq<Argument>)
    requires SoundArguments(args) && (a.ListArg? ==> a.texts != [])
    ensures SoundArguments([a] + args) && PrintArguments([a] + args) == PrintArgument(a) + PrintArguments(args)
  {
    assert ([a] + args)[1..] == args;
  }

  lemma {:induction false} ArgumentsPrint(ts: seq<Token>)
    requires ParseArguments(ts).Done?
    ensures var r := ParseArguments(ts); SoundArguments(r.value) && ts == PrintArguments(r.value) + r.rest
    decreases |ts|
  {
    hide PrintArguments, SoundArguments, ParseStringItems, PrintItems;
    if !NoArgument(ts) {
      assert ts == [ts[0]] + ts[1..];
      if ts[0] == LBrack {
        ItemsPrint(ts[1..]);
        var l := ParseStringItems(ts[1..]);
        ArgumentsPrint(l.rest);
        SoundPrepend(ListArg(l.value), ParseArguments(l.rest).value);
      } else {
        ArgumentsPrint(ts[1..]);
        var a := if ts[0].Tag? then TagArg(ts[0].name) else if ts[0].Num? then NumArg(ts[0].number)
          else StrArg(ts[0].value);
        SoundPrepend(a, ParseArguments(ts[1..]).value);
      }
    } else {
      NothingPrinted(ts);
    }
  }

  lemma NothingPrinted(ts: seq<Token>)
    ensures SoundArguments([]) && PrintArguments([]) + ts == ts
  {
  }

  lemma {:induction false} PhrasePrints(ts: seq<Token>)
    requires ParsePhrase(ts).Done?
    ensures var r := ParsePhrase(ts); SoundPhrase(r.value) && ts == PrintPhrase(r.value) + r.rest
    decreases |ts|, 1
  {
    hide *;
    PhraseHead(ts);
    TestsPrint(ts);
    ArgumentsPrint(ts[1..]);
    var r := ParsePhrase(ts);
    SoundWhole(r.value);
    PhraseShape(r.value, r.rest);
    assert ts == [ts[0]] + ts[1..];
  }

  lemma PhraseHead(ts: seq<Token>)
    requires ParsePhrase(ts).Done?
    ensures var r := ParsePhrase(ts); var a := ParseArguments(ts[1..]);
      a.Done? && ts[0] == Ident(r.value.name) && r.value.args == a.value
  {
    hide ParseArguments, ParsePhrases;
  }

  lemma SoundWhole(p: Phrase)
    ensures SoundPhrase(p) <==> SoundArguments(p.args) && SoundTests(p.tests)
  {
    hide SoundArguments;
  }

  predicate SoundTests(tests: Tests) {
    match tests
    case NoTest => true
    case OneTest(t) => SoundPhrase(t)
    case TestList(l) => l != [] && SoundPhrases(l)
  }

  lemma {:induction false} TestsPrint(ts: seq<Token>)
    requires ParsePhrase(ts).Done?
    ensures var r := ParsePhrase(ts); var a := ParseArguments(ts[1..]);
      a.Done? && SoundTests(r.value.tests) && a.rest == PrintTests(r.value.tests) + r.rest
    decreases |ts|, 0
  {
    var r := ParsePhrase(ts);
    var a := ParseArguments(ts[1..]);
    hide ParseArguments, PrintPhrase, PrintPhrases, ParsePhrases, SoundPhrase, SoundPhrases;
    match r.value.tests {
      case NoTest =>
        assert [] + r.rest == r.rest;
      case OneTest(t) =>
        PhrasePrints(a.rest);
      case TestList(l) =>
        PhrasesPrint(a.rest[1..]);
        assert a.rest == [LParen] + a.rest[1..];
        Grouped([LParen], PrintPhrases(l), r.rest);
    }
  }

  lemma {:induction false} PhrasesPrint(ts: seq<Token>)
    requires ParsePhrases(ts).Done?
    ensures var r := ParsePhrases(ts);
      r.value != [] && SoundPhrases(r.value) && ts == PrintPhrases(r.value) + r.rest
    decreases |ts|, 2
  {
    PhrasePrints(ts);
    var t, r := ParsePhrase(ts), ParsePhrases(ts);
    assert r.value[0] == t.value;
    if t.rest[0] == Comma {
      PhrasesPrint(t.rest[1..]);
      var l := ParsePhrases(t.rest[1..]);
      assert r.value[1..] == l.value && r.rest == l.rest;
      assert t.rest == [Comma] + t.rest[1..];
    } else {
      assert t.rest == [RParen] + t.rest[1..] && r.value[1..] == [];
    }
    hide *;
    NoneUnsound();
    PhrasesShape(r.value, r.rest);
    SoundParts(r.value);
  }

  lemma NoneUnsound()
    ensures SoundPhrases([])
  {
  }

  lemma {:induction false} TreePrints(ts: seq<Token>)
    requires ParseTree(ts).Done?
    ensures var r := ParseTree(ts); SoundTree(r.value) && ts == PrintTree(r.value) + r.rest
    decreases |ts|, 0
  {
    PhrasePrints(ts);
    var r := ParseTree(ts);
    hide ParsePhrase, PrintPhrase, SoundPhrase, PrintTree, PrintTrees, ParseBlock;
    var p := ParsePhrase(ts);
    assert p.rest == [p.rest[0]] + p.rest[1..];
    if p.rest[0] == LBrace {
      BlockPrints(p.rest[1..]);
    }
    TreeShape(r.value, r.rest);
  }

  lemma PrintPrepend(t: Tree, trees: seq<Tree>, rest: seq<Token>)
    ensures PrintTrees([t] + trees) + rest == PrintTree(t) + (PrintTrees(trees) + rest)
  {
    hide PrintTree;
    assert ([t] + trees)[1..] == trees;
  }

  lemma {:induction false} BlockPrints(ts: seq<Token>)
    requires ParseBlock(ts).Done?
    ensures var r := ParseBlock(ts);
      (forall t :: t in r.value ==> SoundTree(t)) && ts == PrintTrees(r.value) + ([RBrace] + r.rest)
    decreases |ts|, 1
  {
    if ts != [] && ts[0] == RBrace {
      assert ts == [RBrace] + ts[1..];
      assert PrintTrees([]) + ts == ts;
    } else {
      TreePrints(ts);
      hide ParseTree, PrintTree, SoundTree, PrintTrees;
      var c := ParseTree(ts);
      BlockPrints(c.rest);
      PrintPrepend(c.value, ParseBlock(c.rest).value, [RBrace] + ParseBlock(c.rest).rest);
    }
  }

  /** A script determines its tokens: what is read was printed from just that. */
  lemma {:induction false} TreesPrint(ts: seq<Token>)
    requires ParseTrees(ts).Some?
    ensures SoundTrees(ParseTrees(ts).value) && ts == PrintTrees(ParseTrees(ts).value)
    decreases |ts|
  {
    if ts != [] {
      TreePrints(ts);
      hide ParseTree, PrintTree, SoundTree;
      var c := ParseTree(ts);
      TreesPrint(c.rest);
      var r := ParseTrees(c.rest);
      assert ([c.value] + r.value)[1..] == r.value;
    }
  }

  // ----- tokens of no command -----

  predicate Proper(ts: seq<Token>) {
    Bad !in ts && Open !in ts
  }

  lemma {:induction false} ItemsProper(texts: seq<string>)
    ensures Proper(PrintItems(texts))
  {
    if |texts| > 1 {
      ItemsProper(texts[1..]);
    }
  }

  lemma {:induction false} ArgumentsProper(args: seq<Argument>)
    ensures Proper(PrintArguments(args))
  {
    if args != [] {
      if args[0].ListArg? {
        ItemsProper(args[0].texts);
      }
      hide PrintItems;
      ArgumentsProper(args[1..]);
    }
  }

  lemma {:induction false} PhraseProper(p: Phrase)
    ensures Proper(PrintPhrase(p))
    decreases p, 0
  {
    ArgumentsProper(p.args);
    hide PrintArguments;
    match p.tests {
      case NoTest =>
      case OneTest(t) => PhraseProper(t);
      case TestList(l) => PhrasesProper(l);
    }
  }

  lemma {:induction false} PhrasesProper(l: seq<Phrase>)
    ensures Proper(PrintPhrases(l))
    decreases l, 1
  {
    if l != [] {
      PhraseProper(l[0]);
      hide PrintPhrase;
      PhrasesProper(l[1..]);
    }
  }

  lemma {:induction false} TreesProper(trees: seq<Tree>)
    ensures Proper(PrintTrees(trees))
    decreases trees
  {
    if trees != [] {
      PhraseProper(trees[0].phrase);
      hide PrintPhrase;
      if trees[0].Compound? {
        TreesProper(trees[0].block);
      }
      TreesProper(trees[1..]);
    }
  }

  /** The grammar refuses tokens that are none. */
  lemma ImproperRefused(ts: seq<Token>)
    requires !Proper(ts)
    ensures ParseTrees(ts).None?
  {
    if ParseTrees(ts).Some? {
      TreesPrint(ts);
      TreesProper(ParseTrees(ts).value);
    }
  }
}
