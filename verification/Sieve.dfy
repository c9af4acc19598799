/** Sieve. Tokens and grammar are those of section 8 of RFC 5228, all of it, with a line ending at LF. The
    commands and tests read from a script are those of its base language, with `fileinto`, the `body` test of
    RFC 5173 without its transforms, and `addflag` (section 3.2 of RFC 5232). */
module Sieve {
  import opened Text

  // ----- lexical tokens (section 8.1 of RFC 5228) -----

  /** `Open` is a bracket comment or a multi-line string that does not end; `Bad` is any other text that
      is no token. */
  datatype Token =
    | Ident(name: string)
    | Tag(name: string)
    | Num(number: nat)
    | Str(value: string)
    | LBrack | RBrack | LParen | RParen | LBrace | RBrace | Comma | Semi
    | Bad | Open

  datatype Quoted = Closed(value: string, rest: string) | Unclosed

  predicate Alpha(c: char) {
    'a' <= c <= 'z' || 'A' <= c <= 'Z' || c == '_'
  }

  predicate Digit(c: char) {
    '0' <= c <= '9'
  }

  predicate IdentChar(c: char) {
    Alpha(c) || Digit(c)
  }

  predicate Blank(c: char) {
    c == ' ' || c == '\t' || c == '\r' || c == '\n'
  }

  /** The number of leading identifier characters. */
  function IdentLength(s: string): (n: nat)
    ensures n <= |s|
  {
    if s != "" && IdentChar(s[0]) then 1 + IdentLength(s[1..]) else 0
  }

  /** The number of leading digits. */
  function DigitsLength(s: string): (n: nat)
    ensures n <= |s|
  {
    if s != "" && Digit(s[0]) then 1 + DigitsLength(s[1..]) else 0
  }

  function DigitsValue(s: string): nat
    requires forall i :: 0 <= i < |s| ==> Digit(s[i])
  {
    if s == "" then 0 else
    assert Digit(s[|s| - 1]);
    10 * DigitsValue(s[..|s| - 1]) + (s[|s| - 1] as int - '0' as int)
  }

  /** What a quantifier multiplies a number by. */
  function Quantifier(c: char): nat {
    if c == 'k' || c == 'K' then 0x400 else if c == 'm' || c == 'M' then 0x10_0000
    else if c == 'g' || c == 'G' then 0x4000_0000 else 0
  }

  /** What follows the end of the current line. */
  function AfterLine(s: string): (r: string)
    ensures |r| <= |s|
  {
    if s == "" then "" else if s[0] == '\n' then s[1..] else AfterLine(s[1..])
  }

  /** What follows the end of a bracket comment. */
  function AfterComment(s: string): (r: Option<string>)
    ensures r.Some? ==> |r.value| < |s|
  {
    if |s| < 2 then None
    else if s[0] == '*' && s[1] == '/' then Some(s[2..])
    else AfterComment(s[1..])
  }

  /** The body of a quoted string: a backslash makes the next character literal. */
  function LexQuoted(s: string): (r: Quoted)
    ensures r.Closed? ==> |r.rest| < |s|
  {
    if s == "" then Unclosed
    else if s[0] == '"' then Closed("", s[1..])
    else if s[0] == '\\' then
      if |s| == 1 then Unclosed
      else
        var r := LexQuoted(s[2..]);
        if r.Closed? then Closed([s[1]] + r.value, r.rest) else Unclosed
    else
      var r := LexQuoted(s[1..]);
      if r.Closed? then Closed([s[0]] + r.value, r.rest) else Unclosed
  }

  /** The number of characters of a line that ends a multi-line string, or zero. */
  function DotLine(s: string): (n: nat)
    ensures n <= |s|
  {
    if |s| >= 2 && s[0] == '.' && s[1] == '\n' then 2
    else if |s| >= 3 && s[0] == '.' && s[1] == '\r' && s[2] == '\n' then 3
    else 0
  }

  /** The lines of a multi-line string: of two dots at the start of a line one is dropped. */
  function LexLines(s: string): (r: Quoted)
    ensures r.Closed? ==> |r.rest| < |s|
    decreases |s|
  {
    if '\n' !in s then Unclosed
    else if DotLine(s) > 0 then Closed("", s[DotLine(s)..])
    else
      var next := AfterLine(s);
      var line := s[..|s| - |next|];
      var r := LexLines(next);
      if r.Closed? then Closed(Unstuffed(line) + r.value, r.rest) else Unclosed
  }

  function Unstuffed(line: string): string {
    if |line| > 1 && line[0] == '.' && line[1] == '.' then line[1..] else line
  }

  /** What follows the line on which a multi-line string is opened: blanks and at most a comment may
      stand behind the opening. */
  function LinesBegin(s: string): (r: Option<string>)
    ensures r.Some? ==> |r.value| < |s|
  {
    if s == "" then None
    else if s[0] == '\n' then Some(s[1..])
    else if Blank(s[0]) then LinesBegin(s[1..])
    else if s[0] == '#' && '\n' in s then Some(AfterLine(s[1..]))
    else None
  }

  function TextOpens(s: string): (r: Option<string>)
    ensures r.Some? ==> |r.value| < |s|
  {
    if |s| >= 5 && ToLower(s[..4]) == "text" && s[4] == ':' then LinesBegin(s[5..]) else None
  }

  predicate CommentOpens(s: string) {
    |s| >= 2 && s[0] == '/' && s[1] == '*'
  }

  function Punctuation(c: char): Token {
    if c == '[' then LBrack else if c == ']' then RBrack
    else if c == '(' then LParen else if c == ')' then RParen
    else if c == '{' then LBrace else if c == '}' then RBrace
    else if c == ',' then Comma else if c == ';' then Semi
    else Bad
  }

  /** The token at the start of a text that begins with none of blank, comment and string, and how far it
      reaches. */
  function FirstToken(s: string): (r: (Token, nat))
    requires s != ""
    ensures r.1 <= |s| && (r.0 != Bad ==> r.1 > 0) && r.0 != Open
  {
    if Alpha(s[0]) then (Ident(ToLower(s[..IdentLength(s)])), IdentLength(s))
    else if Digit(s[0]) then
      var n := DigitsLength(s);
      DigitsAreDigits(s);
      var factor := if n < |s| then Quantifier(s[n]) else 0;
      if factor == 0 then (Num(DigitsValue(s[..n])), n) else (Num(DigitsValue(s[..n]) * factor), n + 1)
    else if s[0] == ':' then
      var n := IdentLength(s[1..]);
      if n == 0 || Digit(s[1]) then (Bad, 0) else (Tag(ToLower(s[1..n + 1])), n + 1)
    else if Punctuation(s[0]) == Bad then (Bad, 0)
    else (Punctuation(s[0]), 1)
  }

  lemma {:induction false} DigitsAreDigits(s: string)
    ensures forall i :: 0 <= i < DigitsLength(s) ==> Digit(s[i])
  {
    if s != "" && Digit(s[0]) {
      DigitsAreDigits(s[1..]);
      assert forall i :: 1 <= i < |s| ==> s[i] == s[1..][i - 1];
    }
  }

  /** The tokens of a script. */
  function Lex(s: string): seq<Token>
    decreases |s|
  {
    if s == "" then []
    else if Blank(s[0]) then Lex(s[1..])
    else if s[0] == '#' then Lex(AfterLine(s[1..]))
    else if CommentOpens(s) then
      var r := AfterComment(s[2..]);
      if r.Some? then Lex(r.value) else [Open]
    else if s[0] == '"' then
      var q := LexQuoted(s[1..]);
      if q.Closed? then [Str(q.value)] + Lex(q.rest) else [Bad]
    else if TextOpens(s).Some? then
      var q := LexLines(TextOpens(s).value);
      if q.Closed? then [Str(q.value)] + Lex(q.rest) else [Open]
    else
      var (token, n) := FirstToken(s);
      if token == Bad then [Bad] else [token] + Lex(s[n..])
  }

  // ----- grammar (section 8.2 of RFC 5228) -----

  datatype Argument = TagArg(tag: string) | NumArg(number: nat) | StrArg(text: string) | ListArg(texts: seq<string>)

  /** What may stand behind the arguments: nothing, a test, or a list of tests. */
  datatype Tests = NoTest | OneTest(test: Phrase) | TestList(tests: seq<Phrase>)

  /** An identifier and its arguments: a test, or what a command begins with. */
  datatype Phrase = Phrase(name: string, args: seq<Argument>, tests: Tests)

  /** A command: a phrase, then a semicolon or a block. */
  datatype Tree = Simple(phrase: Phrase) | Compound(phrase: Phrase, block: seq<Tree>)

  datatype Parsed<+T> = Fail | Done(value: T, rest: seq<Token>)

  function ParseStringItems(ts: seq<Token>): (r: Parsed<seq<string>>)
    ensures r.Done? ==> |r.rest| < |ts|
  {
    if |ts| < 2 || !ts[0].Str? then Fail
    else if ts[1] == RBrack then Done([ts[0].value], ts[2..])
    else if ts[1] == Comma then
      var r := ParseStringItems(ts[2..]);
      if r.Done? then Done([ts[0].value] + r.value, r.rest) else Fail
    else Fail
  }

  function ParseArguments(ts: seq<Token>): (r: Parsed<seq<Argument>>)
    ensures r.Done? ==> |r.rest| <= |ts|
    decreases |ts|
  {
    if ts == [] then Done([], ts)
    else if ts[0].Tag? then Prepend(TagArg(ts[0].name), ParseArguments(ts[1..]))
    else if ts[0].Num? then Prepend(NumArg(ts[0].number), ParseArguments(ts[1..]))
    else if ts[0].Str? then Prepend(StrArg(ts[0].value), ParseArguments(ts[1..]))
    else if ts[0] == LBrack then
      var l := ParseStringItems(ts[1..]);
      if l.Done? then Prepend(ListArg(l.value), ParseArguments(l.rest)) else Fail
    else Done([], ts)
  }

  function Prepend<T>(x: T, r: Parsed<seq<T>>): Parsed<seq<T>> {
    if r.Done? then Done([x] + r.value, r.rest) else Fail
  }

  function ParsePhrase(ts: seq<Token>): (r: Parsed<Phrase>)
    ensures r.Done? ==> |r.rest| < |ts|
    decreases |ts|, 0
  {
    if ts == [] || !ts[0].Ident? then Fail else
    var a := ParseArguments(ts[1..]);
    if a.Fail? then Fail
    else if a.rest != [] && a.rest[0].Ident? then
      var t := ParsePhrase(a.rest);
      if t.Done? then Done(Phrase(ts[0].name, a.value, OneTest(t.value)), t.rest) else Fail
    else if a.rest != [] && a.rest[0] == LParen then
      var l := ParsePhrases(a.rest[1..]);
      if l.Done? then Done(Phrase(ts[0].name, a.value, TestList(l.value)), l.rest) else Fail
    else Done(Phrase(ts[0].name, a.value, NoTest), a.rest)
  }

  /** The tests of a test-list, after its opening parenthesis. */
  function ParsePhrases(ts: seq<Token>): (r: Parsed<seq<Phrase>>)
    ensures r.Done? ==> |r.rest| < |ts|
    decreases |ts|, 1
  {
    var t := ParsePhrase(ts);
    if t.Fail? || t.rest == [] then Fail
    else if t.rest[0] == RParen then Done([t.value], t.rest[1..])
    else if t.rest[0] == Comma then Prepend(t.value, ParsePhrases(t.rest[1..]))
    else Fail
  }

  function ParseTree(ts: seq<Token>): (r: Parsed<Tree>)
    ensures r.Done? ==> |r.rest| < |ts|
    decreases |ts|, 0
  {
    var p := ParsePhrase(ts);
    if p.Fail? || p.rest == [] then Fail
    else if p.rest[0] == Semi then Done(Simple(p.value), p.rest[1..])
    else if p.rest[0] == LBrace then
      var b := ParseBlock(p.rest[1..]);
      if b.Done? then Done(Compound(p.value, b.value), b.rest) else Fail
    else Fail
  }

  /** The commands of a block, after its opening brace. */
  function ParseBlock(ts: seq<Token>): (r: Parsed<seq<Tree>>)
    ensures r.Done? ==> |r.rest| < |ts|
    decreases |ts|, 1
  {
    if ts != [] && ts[0] == RBrace then Done([], ts[1..]) else
    var c := ParseTree(ts);
    if c.Done? then Prepend(c.value, ParseBlock(c.rest)) else Fail
  }

  function ParseTrees(ts: seq<Token>): Option<seq<Tree>>
    decreases |ts|
  {
    if ts == [] then Some([]) else
    var c := ParseTree(ts);
    if c.Fail? then None else
    var r := ParseTrees(c.rest);
    if r.Some? then Some([c.value] + r.value) else None
  }

  /** A script as the grammar has it; nothing when the grammar refuses it. */
  function Parse(text: string): Option<seq<Tree>> {
    ParseTrees(Lex(text))
  }

  // ----- tests and commands -----

  datatype MatchType = Is | Contains | Matches

  /** How values and keys are compared: the match type, and whether case counts. */
  datatype Match = Match(kind: MatchType, exact: bool)

  datatype AddressPart = All | LocalPart | Domain

  datatype Test =
    | True
    | False
    | Not(test: Test)
    | AllOf(tests: seq<Test>)
    | AnyOf(tests: seq<Test>)
    | Exists(names: seq<string>)
    | Over(limit: nat)
    | Under(limit: nat)
    | Header(how: Match, names: seq<string>, keys: seq<string>)
    | Address(part: AddressPart, how: Match, names: seq<string>, keys: seq<string>)
    | Body(how: Match, keys: seq<string>)

  datatype Command =
    | Require(capabilities: seq<string>)
    | If(test: Test, block: seq<Command>, otherwise: seq<Command>)
    | FileInto(mailbox: string)
    | AddFlag(flags: seq<string>)
    | Redirect(address: string)
    | Keep
    | Discard
    | Stop

  /** The tagged arguments of a test, each given at most once. */
  datatype Options = Options(kind: Option<MatchType>, exact: Option<bool>, part: Option<AddressPart>)

  const NO_OPTIONS := Options(None, None, None)

  function KindOf(tag: string): Option<MatchType> {
    if tag == "is" then Some(Is) else if tag == "contains" then Some(Contains)
    else if tag == "matches" then Some(Matches) else None
  }

  function PartNamed(tag: string): Option<AddressPart> {
    if tag == "all" then Some(All) else if tag == "localpart" then Some(LocalPart)
    else if tag == "domain" then Some(Domain) else None
  }

  function Comparator(name: string): Option<bool> {
    if name == "i;ascii-casemap" then Some(false) else if name == "i;octet" then Some(true) else None
  }

  /** The options at the front of the arguments, and the arguments behind them. */
  function ReadOptions(args: seq<Argument>, o: Options): Option<(Options, seq<Argument>)> {
    if args == [] || !args[0].TagArg? then Some((o, args))
    else if KindOf(args[0].tag).Some? && o.kind.None? then ReadOptions(args[1..], o.(kind := KindOf(args[0].tag)))
    else if PartNamed(args[0].tag).Some? && o.part.None? then
      ReadOptions(args[1..], o.(part := PartNamed(args[0].tag)))
    else if args[0].tag == "comparator" && o.exact.None? && |args| > 1 && args[1].StrArg?
      && Comparator(args[1].text).Some? then ReadOptions(args[2..], o.(exact := Comparator(args[1].text)))
    else None
  }

  function How(o: Options): Match {
    Match(if o.kind.Some? then o.kind.value else Is, o.exact == Some(true))
  }

  /** A string counts as a list of one. */
  function Strings(a: Argument): Option<seq<string>> {
    match a
    case StrArg(s) => Some([s])
    case ListArg(l) => Some(l)
    case _ => None
  }

  /** A test that compares: its options and then one list of strings or two. */
  function ReadComparison(name: string, args: seq<Argument>): Option<Test> {
    var r := ReadOptions(args, NO_OPTIONS);
    if r.None? then None else
    var (o, more) := r.value;
    if name == "body" then
      if |more| == 1 && Strings(more[0]).Some? && o.part.None? then Some(Body(How(o), Strings(more[0]).value)) else None
    else if |more| != 2 || Strings(more[0]).None? || Strings(more[1]).None? then None
    else if name == "address" then
      var part := if o.part.Some? then o.part.value else All;
      Some(Address(part, How(o), Strings(more[0]).value, Strings(more[1]).value))
    else if name == "header" && o.part.None? then
      Some(Header(How(o), Strings(more[0]).value, Strings(more[1]).value))
    else None
  }

  /** The test a phrase stands for, if it is one. */
  function ReadTest(p: Phrase): Option<Test>
    decreases p
  {
    match p.tests
    case NoTest =>
      if p.args == [] then if p.name == "true" then Some(True) else if p.name == "false" then Some(False) else None
      else if p.name == "exists" then
        if |p.args| == 1 && Strings(p.args[0]).Some? then Some(Exists(Strings(p.args[0]).value)) else None
      else if p.name == "size" then
        if |p.args| == 2 && p.args[0] == TagArg("over") && p.args[1].NumArg? then Some(Over(p.args[1].number))
        else if |p.args| == 2 && p.args[0] == TagArg("under") && p.args[1].NumArg? then Some(Under(p.args[1].number))
        else None
      else ReadComparison(p.name, p.args)
    case OneTest(q) =>
      if p.name != "not" || p.args != [] then None else
      var t := ReadTest(q);
      if t.Some? then Some(Not(t.value)) else None
    case TestList(l) =>
      if p.args != [] then None else
      var ts := ReadTests(l);
      if ts.None? then None
      else if p.name == "allof" then Some(AllOf(ts.value))
      else if p.name == "anyof" then Some(AnyOf(ts.value))
      else None
  }

  function ReadTests(l: seq<Phrase>): Option<seq<Test>>
    decreases l
  {
    if l == [] then Some([]) else
    var t := ReadTest(l[0]);
    var ts := ReadTests(l[1..]);
    if t.Some? && ts.Some? then Some([t.value] + ts.value) else None
  }

  /** A command that is no control structure. */
  function ReadSimple(p: Phrase): Option<Command> {
    if p.tests != NoTest then None
    else if p.args == [] then
      if p.name == "stop" then Some(Stop) else if p.name == "keep" then Some(Keep)
      else if p.name == "discard" then Some(Discard) else None
    else if |p.args| != 1 then None
    else if p.name == "fileinto" && p.args[0].StrArg? then Some(FileInto(p.args[0].text))
    else if p.name == "redirect" && p.args[0].StrArg? then Some(Redirect(p.args[0].text))
    else if p.name == "addflag" && Strings(p.args[0]).Some? then Some(AddFlag(Strings(p.args[0]).value))
    else None
  }

  /** The test of `if` or `elsif`. */
  function ReadBranch(p: Phrase): Option<Test> {
    if p.args == [] && p.tests.OneTest? then ReadTest(p.tests.test) else None
  }

  predicate GoesOn(t: Tree) {
    t.phrase.name == "elsif" || t.phrase.name == "else"
  }

  /** The branches behind an `if`: what they do, and how many commands they are. */
  function ReadElse(ts: seq<Tree>): (r: Option<(seq<Command>, nat)>)
    ensures r.Some? ==> r.value.1 <= |ts|
    decreases ts, 0
  {
    if ts == [] || !GoesOn(ts[0]) then Some(([], 0))
    else if ts[0].Simple? then None
    else
      var block := ReadCommands(ts[0].block);
      if block.None? then None
      else if ts[0].phrase.name == "else" then
        if ts[0].phrase.args == [] && ts[0].phrase.tests == NoTest then Some((block.value, 1)) else None
      else
        var test := ReadBranch(ts[0].phrase);
        var more := ReadElse(ts[1..]);
        if test.None? || more.None? then None
        else Some(([If(test.value, block.value, more.value.0)], more.value.1 + 1))
  }

  /** The commands that trees stand for, if they all do. */
  function ReadCommands(ts: seq<Tree>): Option<seq<Command>>
    decreases ts, 1
  {
    if ts == [] then Some([])
    else if ts[0].Simple? then
      var c := ReadSimple(ts[0].phrase);
      var more := ReadCommands(ts[1..]);
      if c.Some? && more.Some? then Some([c.value] + more.value) else None
    else if ts[0].phrase.name != "if" then None
    else
      var test := ReadBranch(ts[0].phrase);
      var block := ReadCommands(ts[0].block);
      var otherwise := ReadElse(ts[1..]);
      if test.None? || block.None? || otherwise.None? then None else
      var more := ReadCommands(ts[1 + otherwise.value.1..]);
      if more.None? then None else Some([If(test.value, block.value, otherwise.value.0)] + more.value)
  }

  predicate IsRequire(t: Tree) {
    t.Simple? && t.phrase.name == "require" && t.phrase.tests == NoTest && |t.phrase.args| == 1
      && Strings(t.phrase.args[0]).Some?
  }

  /** A script: `require` comes before everything else. */
  function ReadTrees(ts: seq<Tree>): Option<seq<Command>> {
    if ts != [] && IsRequire(ts[0]) then
      var more := ReadTrees(ts[1..]);
      if more.Some? then Some([Require(Strings(ts[0].phrase.args[0]).value)] + more.value) else None
    else ReadCommands(ts)
  }

  /** The commands of a script; nothing when the grammar refuses it or a command is none of the above. */
  function ReadScript(text: string): Option<seq<Command>> {
    var trees := Parse(text);
    if trees.Some? then ReadTrees(trees.value) else None
  }

  // ----- interpreter -----

  datatype HeaderField = HeaderField(name: string, value: string)

  /** One address of an address header. */
  datatype AddressField = AddressField(header: string, local: string, domain: string)

  datatype Message = Message(headers: seq<HeaderField>, addresses: seq<AddressField>, body: string, size: nat)

  datatype Action =
    | FiledInto(mailbox: string)
    | FlagsAdded(flags: seq<string>)
    | RedirectedTo(address: string)
    | Kept
    | Discarded

  datatype Outcome = Outcome(trace: seq<Action>, stopped: bool)

  /** Wildcards: `*` is any text, `?` one character, and a backslash takes the next as it is. */
  predicate Fits(value: string, pattern: string)
    decreases |pattern|, |value|
  {
    if pattern == "" then value == ""
    else if pattern[0] == '*' then Fits(value, pattern[1..]) || (value != "" && Fits(value[1..], pattern))
    else if value == "" then false
    else if pattern[0] == '?' then Fits(value[1..], pattern[1..])
    else if pattern[0] == '\\' && |pattern| > 1 then value[0] == pattern[1] && Fits(value[1..], pattern[2..])
    else value[0] == pattern[0] && Fits(value[1..], pattern[1..])
  }

  predicate Compares(how: Match, value: string, key: string) {
    var v, k := if how.exact then value else ToLower(value), if how.exact then key else ToLower(key);
    match how.kind
    case Is => v == k
    case Contains => Text.Contains(v, k)
    case Matches => Fits(v, k)
  }

  function PartOf(part: AddressPart, a: AddressField): string {
    match part
    case All => a.local + "@" + a.domain
    case LocalPart => a.local
    case Domain => a.domain
  }

  predicate Eval(t: Test, m: Message) {
    match t
    case True => true
    case False => false
    case Not(u) => !Eval(u, m)
    case AllOf(tests) => forall u :: u in tests ==> Eval(u, m)
    case AnyOf(tests) => exists u :: u in tests && Eval(u, m)
    case Exists(names) => forall n :: n in names ==> exists h :: h in m.headers && EqualFold(h.name, n)
    case Over(limit) => m.size > limit
    case Under(limit) => m.size < limit
    case Header(how, names, keys) =>
      exists h, n, k :: h in m.headers && n in names && k in keys && EqualFold(h.name, n) && Compares(how, h.value, k)
    case Address(part, how, names, keys) =>
      exists a, n, k :: a in m.addresses && n in names && k in keys && EqualFold(a.header, n)
        && Compares(how, PartOf(part, a), k)
    case Body(how, keys) =>
      exists k :: k in keys && Compares(how, m.body, k)
  }

  /** The actions a script performs on a message, and whether `stop` ended it. */
  function Run(cmds: seq<Command>, m: Message): Outcome
    decreases cmds
  {
    if cmds == [] then Outcome([], false) else
    var first := Step(cmds[0], m);
    if first.stopped then first else
    var r := Run(cmds[1..], m);
    Outcome(first.trace + r.trace, r.stopped)
  }

  function Step(c: Command, m: Message): Outcome
    decreases c
  {
    match c
    case Require(_) => Outcome([], false)
    case If(t, block, otherwise) => if Eval(t, m) then Run(block, m) else Run(otherwise, m)
    case FileInto(mb) => Outcome([FiledInto(mb)], false)
    case AddFlag(flags) => Outcome([FlagsAdded(flags)], false)
    case Redirect(a) => Outcome([RedirectedTo(a)], false)
    case Keep => Outcome([Kept], false)
    case Discard => Outcome([Discarded], false)
    case Stop => Outcome([], true)
  }
}
