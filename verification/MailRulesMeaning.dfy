/** Meaning preservation: running the compiled script on a message performs the same
    actions, in the same order, as applying the rules directly. */
module MailRulesMeaning {
  import opened Text
  import opened Mailboxes
  import opened MailRules
  import S = Sieve
  import opened MailRulesProof
  import opened MailRulesTheorems

  predicate Holds(c: Condition, m: S.Message) {
    match c
    case FromContains(k) => HeaderHas(m, "from", k)
    case FromDomainIs(k) => SenderDomainIs(m, k)
    case ToContains(k) => RecipientHas(m, k)
    case SubjectContains(k) => HeaderHas(m, "subject", k)
    case BodyContains(k) => BodyHas(m, k)
  }

  lemma EvalHeader(name: string, k: string, m: S.Message)
    ensures S.Eval(S.Header(CONTAINS, [name], [k]), m) <==> HeaderHas(m, name, k)
  {
    hide Text.Contains, ToLower;
    if HeaderHas(m, name, k) {
      var h :| h in m.headers && EqualFold(h.name, name) && Text.Contains(ToLower(h.value), ToLower(k));
      assert name in [name] && k in [k] && S.Compares(CONTAINS, h.value, k);
    }
  }

  lemma EvalDomain(k: string, m: S.Message)
    ensures S.Eval(TestOf(FromDomainIs(k)), m) <==> SenderDomainIs(m, k)
  {
    hide Text.Contains, ToLower;
    if SenderDomainIs(m, k) {
      var a :| a in m.addresses && EqualFold(a.header, "from") && EqualFold(a.domain, k);
      assert "from" in ["from"] && k in [k] && S.Compares(S.Match(S.Is, false), S.PartOf(S.Domain, a), k);
    }
  }

  lemma EvalRecipient(k: string, m: S.Message)
    ensures S.Eval(TestOf(ToContains(k)), m) <==> RecipientHas(m, k)
  {
    hide Text.Contains, ToLower;
    var names := ["to", "cc", "bcc"];
    assert names[0] == "to" && names[1] == "cc" && names[2] == "bcc";
    if RecipientHas(m, k) {
      var a :| a in m.addresses
        && (EqualFold(a.header, "to") || EqualFold(a.header, "cc") || EqualFold(a.header, "bcc"))
        && Text.Contains(ToLower(a.local + "@" + a.domain), ToLower(k));
      var n :| n in names && EqualFold(a.header, n);
      assert k in [k] && S.Compares(CONTAINS, S.PartOf(S.All, a), k);
    }
  }

  lemma EvalCondition(c: Condition, m: S.Message)
    ensures S.Eval(TestOf(c), m) <==> Holds(c, m)
  {
    hide S.Eval, HeaderHas, SenderDomainIs, RecipientHas;
    match c {
      case FromContains(k) => EvalHeader("from", k, m);
      case SubjectContains(k) => EvalHeader("subject", k, m);
      case FromDomainIs(k) => EvalDomain(k, m);
      case ToContains(k) => EvalRecipient(k, m);
      case BodyContains(k) => EvalBody(k, m);
    }
  }

  lemma EvalBody(k: string, m: S.Message)
    ensures S.Eval(TestOf(BodyContains(k)), m) <==> BodyHas(m, k)
  {
    hide Text.Contains, ToLower;
    assert k in [k];
  }

  /** A rule's conditions, as the list the compiler works on. */
  lemma FiresOnList(r: Rule, m: S.Message)
    requires r.enabled && HasCondition(r)
    ensures Fires(r, m) <==>
      if MatchesAny(r) then exists c :: c in ConditionList(r) && Holds(c, m)
      else forall c :: c in ConditionList(r) ==> Holds(c, m)
  {
    var t := TrimConditions(r.conditions);
    hide TrimConditions, HeaderHas, SenderDomainIs, RecipientHas, BodyHas, MatchesAny;
    ListMembers(r);
    if Fires(r, m) && MatchesAny(r) {
      var c := if t.fromContains != "" && HeaderHas(m, "from", t.fromContains) then FromContains(t.fromContains)
        else if t.fromDomainIs != "" && SenderDomainIs(m, t.fromDomainIs) then FromDomainIs(t.fromDomainIs)
        else if t.toContains != "" && RecipientHas(m, t.toContains) then ToContains(t.toContains)
        else if t.subjectContains != "" && HeaderHas(m, "subject", t.subjectContains)
          then SubjectContains(t.subjectContains)
        else BodyContains(t.bodyContains);
      assert c in ConditionList(r) && Holds(c, m);
    }
    if !MatchesAny(r) && (forall c :: c in ConditionList(r) ==> Holds(c, m)) {
      assert t.fromContains != "" ==> Holds(FromContains(t.fromContains), m);
      assert t.fromDomainIs != "" ==> Holds(FromDomainIs(t.fromDomainIs), m);
      assert t.toContains != "" ==> Holds(ToContains(t.toContains), m);
      assert t.subjectContains != "" ==> Holds(SubjectContains(t.subjectContains), m);
      assert t.bodyContains != "" ==> Holds(BodyContains(t.bodyContains), m);
    }
  }

  lemma ListMembers(r: Rule)
    ensures var t := TrimConditions(r.conditions);
      forall c :: c in ConditionList(r) <==>
        || (t.fromContains != "" && c == FromContains(t.fromContains))
        || (t.fromDomainIs != "" && c == FromDomainIs(t.fromDomainIs))
        || (t.toContains != "" && c == ToContains(t.toContains))
        || (t.subjectContains != "" && c == SubjectContains(t.subjectContains))
        || (t.bodyContains != "" && c == BodyContains(t.bodyContains))
  {
    hide TrimConditions;
  }

  predicate AnyHolds(cs: seq<Condition>, m: S.Message) {
    exists c :: c in cs && Holds(c, m)
  }

  predicate AllHold(cs: seq<Condition>, m: S.Message) {
    forall c :: c in cs ==> Holds(c, m)
  }

  lemma EvalEach(cs: seq<Condition>, m: S.Message)
    ensures forall i :: 0 <= i < |cs| ==> (S.Eval(TestsOf(cs)[i], m) <==> Holds(cs[i], m))
  {
    hide S.Eval, Holds, TestOf;
    forall i | 0 <= i < |cs| ensures S.Eval(TestsOf(cs)[i], m) <==> Holds(cs[i], m) {
      EvalCondition(cs[i], m);
    }
  }

  lemma EvalAny(cs: seq<Condition>, m: S.Message)
    ensures S.Eval(S.AnyOf(TestsOf(cs)), m) <==> AnyHolds(cs, m)
  {
    var ts := TestsOf(cs);
    EvalEach(cs, m);
    assert S.Eval(S.AnyOf(ts), m) <==> exists t :: t in ts && S.Eval(t, m);
    hide Holds, TestOf, S.Eval;
    if c :| c in cs && Holds(c, m) {
      var i :| 0 <= i < |cs| && cs[i] == c;
      assert ts[i] in ts && S.Eval(ts[i], m);
    }
    if t :| t in ts && S.Eval(t, m) {
      var i :| 0 <= i < |ts| && ts[i] == t;
      assert cs[i] in cs && Holds(cs[i], m);
    }
  }

  lemma EvalAll(cs: seq<Condition>, m: S.Message)
    ensures S.Eval(S.AllOf(TestsOf(cs)), m) <==> AllHold(cs, m)
  {
    var ts := TestsOf(cs);
    EvalEach(cs, m);
    assert S.Eval(S.AllOf(ts), m) <==> forall t :: t in ts ==> S.Eval(t, m);
    hide Holds, TestOf, S.Eval;
    if c :| c in cs && !Holds(c, m) {
      var i :| 0 <= i < |cs| && cs[i] == c;
      assert ts[i] in ts && !S.Eval(ts[i], m);
    }
    if t :| t in ts && !S.Eval(t, m) {
      var i :| 0 <= i < |ts| && ts[i] == t;
      assert cs[i] in cs && !Holds(cs[i], m);
    }
  }

  /** The compiled expression decides exactly whether the rule fires. */
  lemma EvalExpression(r: Rule, m: S.Message)
    requires r.enabled && HasCondition(r)
    ensures S.Eval(ExpressionTest(r), m) <==> Fires(r, m)
  {
    var cs := ConditionList(r);
    FiresOnList(r, m);
    assert Fires(r, m) <==> if MatchesAny(r) then AnyHolds(cs, m) else AllHold(cs, m);
    ConditionListMatches(r);
    hide ConditionList, Fires, HasCondition, TestOf, MatchesAny, S.Eval, TestsOf;
    if |cs| == 1 {
      EvalCondition(cs[0], m);
      assert cs == [cs[0]];
      hide Holds;
    } else {
      hide AnyHolds, AllHold;
      EvalAny(cs, m);
      EvalAll(cs, m);
    }
  }

  /** A block performs the rule's effects and stops exactly when the rule says so. */
  lemma RunBlock(r: Rule, mailboxes: seq<Mailbox>, m: S.Message)
    ensures S.Run(CommandsOf(StepList(r, mailboxes)), m) == S.Outcome(Effects(r, mailboxes), r.actions.stop)
  {
    var a := TrimActions(r.actions);
    var target := TargetMailbox(r, mailboxes);
    StepListNested(r, mailboxes);
    hide TargetMailbox, TrimSpace, NormalizeAggregateRole, StepList, CommandsOf, When;
    var s4 := When(a.stop, StopHere) + [];
    var s3 := When(a.redirect != "", RedirectTo(a.redirect)) + s4;
    var s2 := When(a.markRead, MarkSeen) + s3;
    RunEnd(a.stop, m);
    RunPrepend(a.redirect != "", RedirectTo(a.redirect), s4, m);
    RunPrepend(a.markRead, MarkSeen, s3, m);
    RunPrepend(target != "", MoveTo(target), s2, m);
  }

  lemma StepListNested(r: Rule, mailboxes: seq<Mailbox>)
    ensures var a := TrimActions(r.actions); var target := TargetMailbox(r, mailboxes);
      StepList(r, mailboxes) == When(target != "", MoveTo(target)) + (When(a.markRead, MarkSeen)
        + (When(a.redirect != "", RedirectTo(a.redirect)) + (When(a.stop, StopHere) + [])))
  {
    hide TargetMailbox, TrimActions, When;
  }

  function StepEffect(s: Step): seq<S.Action> {
    match s
    case MoveTo(mb) => [S.FiledInto(mb)]
    case MarkSeen => [S.FlagsAdded(["\\Seen"])]
    case RedirectTo(a) => [S.RedirectedTo(a)]
    case StopHere => []
  }

  lemma RunEnd(stop: bool, m: S.Message)
    ensures S.Run(CommandsOf(When(stop, StopHere) + []), m) == S.Outcome([], stop)
  {
  }

  lemma RunPrepend(taken: bool, s: Step, rest: seq<Step>, m: S.Message)
    requires s != StopHere
    ensures var o := S.Run(CommandsOf(rest), m);
      S.Run(CommandsOf(When(taken, s) + rest), m) ==
        S.Outcome((if taken then StepEffect(s) else []) + o.trace, o.stopped)
  {
    hide S.Run, S.Step, CommandsOf, CommandOf, StepEffect;
    if taken {
      StepEffects(s, m);
      CommandsCons(s, rest);
      RunCons(CommandOf(s), CommandsOf(rest), m);
    } else {
      assert When(taken, s) + rest == rest;
    }
  }

  lemma StepEffects(s: Step, m: S.Message)
    requires s != StopHere
    ensures S.Step(CommandOf(s), m) == S.Outcome(StepEffect(s), false)
  {
    hide S.Run;
  }

  lemma CommandsCons(s: Step, rest: seq<Step>)
    ensures CommandsOf([s] + rest) == [CommandOf(s)] + CommandsOf(rest)
  {
  }

  lemma RunCons(c: S.Command, cmds: seq<S.Command>, m: S.Message)
    ensures var first, more := S.Step(c, m), S.Run(cmds, m);
      S.Run([c] + cmds, m) == if first.stopped then first else S.Outcome(first.trace + more.trace, more.stopped)
  {
    assert ([c] + cmds)[1..] == cmds;
    hide S.Step;
  }

  /** The conditional of a rule does what the rule does. */
  lemma StepBlock(r: Rule, mailboxes: seq<Mailbox>, m: S.Message)
    requires Emitted(r, mailboxes)
    ensures S.Step(BlockCommand(r, mailboxes), m) ==
      if Fires(r, m) then S.Outcome(Effects(r, mailboxes), r.actions.stop) else S.Outcome([], false)
  {
    EvalExpression(r, m);
    RunBlock(r, mailboxes, m);
    assert S.Run([], m) == S.Outcome([], false);
    hide S.Run, S.Eval, ExpressionTest, CommandsOf, StepList, Effects, Fires;
  }

  lemma {:induction false} RunBlocks(rules: seq<Rule>, mailboxes: seq<Mailbox>, m: S.Message)
    ensures S.Run(BlockCommands(EmittedRules(rules, mailboxes), mailboxes), m).trace == ApplyRules(rules, mailboxes, m)
  {
    hide Fires, HasCondition, Effects, BlockCommand, StepList;
    if rules != [] {
      var r := rules[0];
      RunBlocks(rules[1..], mailboxes, m);
      var rest := EmittedRules(rules[1..], mailboxes);
      if Emitted(r, mailboxes) {
        StepBlock(r, mailboxes, m);
        assert ([r] + rest)[1..] == rest;
        RunCons(BlockCommand(r, mailboxes), BlockCommands(rest, mailboxes), m);
        hide S.Run, S.Step;
      } else {
        EffectsOfNothing(r, mailboxes);
        FiringNeeds(r, m);
        assert EmittedRules(rules, mailboxes) == rest;
        hide S.Run;
      }
    }
  }

  lemma FiringNeeds(r: Rule, m: S.Message)
    ensures Fires(r, m) ==> r.enabled && HasCondition(r)
  {
    hide HasCondition, MatchesAny, HeaderHas, RecipientHas, SenderDomainIs, BodyHas, TrimConditions;
  }

  lemma EffectsOfNothing(r: Rule, mailboxes: seq<Mailbox>)
    ensures StepList(r, mailboxes) == [] ==> Effects(r, mailboxes) == [] && !r.actions.stop
  {
    hide TargetMailbox;
  }

  lemma {:induction false} EmittedRulesEmitted(rules: seq<Rule>, mailboxes: seq<Mailbox>)
    ensures AllEmitted(EmittedRules(rules, mailboxes), mailboxes)
  {
    hide Emitted;
    if rules != [] {
      EmittedRulesEmitted(rules[1..], mailboxes);
    }
  }

  lemma {:induction false} FailureExact(rules: seq<Rule>, mailboxes: seq<Mailbox>)
    ensures FirstFailing(rules, mailboxes).Some? <==> exists r :: r in rules && Fails(r, mailboxes)
  {
    hide Fails;
    if rules != [] {
      FailureExact(rules[1..], mailboxes);
      assert rules == [rules[0]] + rules[1..];
      if Fails(rules[0], mailboxes) {
        assert rules[0] in rules;
      }
    }
  }

  /** Compiler correctness. Compilation fails exactly when some enabled rule with a condition
      names a role that has no mailbox. Otherwise the text parses, and for every message the
      script performs the action trace of the rules applied directly. */
  lemma CompilerCorrect(rules: seq<Rule>, mailboxes: seq<Mailbox>, m: S.Message)
    ensures Compile(rules, mailboxes).Failed? <==> exists r :: r in rules && Fails(r, mailboxes)
    ensures Compile(rules, mailboxes).Script? && QuietNames(EmittedRules(rules, mailboxes)) ==>
      var parsed := S.ReadScript(Compile(rules, mailboxes).text);
      && parsed.Some?
      && S.Run(parsed.value, m).trace == ApplyRules(rules, mailboxes, m)
  {
    hide Fails, Emitted, ScriptText, Capabilities, BlockCommand, S.ReadScript, QuietName, ErrorFor, S.Parse;
    FailureExact(rules, mailboxes);
    var rs := EmittedRules(rules, mailboxes);
    if Compile(rules, mailboxes).Script? && QuietNames(rs) {
      EmittedRulesEmitted(rules, mailboxes);
      ScriptParsesBack(rs, mailboxes);
      RunBlocks(rules, mailboxes, m);
      var cmds := [S.Require(Capabilities(rs))] + BlockCommands(rs, mailboxes);
      assert cmds[1..] == BlockCommands(rs, mailboxes);
      assert S.Run(cmds, m).trace == [] + S.Run(BlockCommands(rs, mailboxes), m).trace;
    }
  }

  // ----- the require line against the parsed script -----

  function TestUses(t: S.Test): set<string> {
    match t
    case Body(_, _) => {"body"}
    case Not(u) => TestUses(u)
    case AllOf(ts) => TestsUse(ts)
    case AnyOf(ts) => TestsUse(ts)
    case _ => {}
  }

  function TestsUse(ts: seq<S.Test>): set<string> {
    if ts == [] then {} else TestUses(ts[0]) + TestsUse(ts[1..])
  }

  /** The capabilities the commands of a script call for. */
  function CommandUses(c: S.Command): set<string>
    decreases c
  {
    match c
    case If(t, block, otherwise) => TestUses(t) + CommandsUse(block) + CommandsUse(otherwise)
    case FileInto(_) => {"fileinto"}
    case AddFlag(_) => {"imap4flags"}
    case Redirect(_) => {"redirect"}
    case _ => {}
  }

  function CommandsUse(cs: seq<S.Command>): set<string>
    decreases cs
  {
    if cs == [] then {} else CommandUses(cs[0]) + CommandsUse(cs[1..])
  }

  lemma {:induction false} TestsUseBody(cs: seq<Condition>)
    ensures TestsUse(TestsOf(cs)) == if exists c :: c in cs && c.BodyContains? then {"body"} else {}
  {
    if cs != [] {
      assert TestsOf(cs)[1..] == TestsOf(cs[1..]);
      TestsUseBody(cs[1..]);
      assert cs == [cs[0]] + cs[1..];
      assert cs[0] in cs;
    }
  }

  lemma ExpressionUses(r: Rule)
    ensures HasCondition(r) ==> TestUses(ExpressionTest(r)) == if NeedsBody(r) then {"body"} else {}
  {
    var cs := ConditionList(r);
    ListMembers(r);
    TestsUseBody(cs);
    ConditionListMatches(r);
    hide ConditionList, TrimConditions, MatchesAny, HasCondition;
    if NeedsBody(r) {
      assert BodyContains(TrimConditions(r.conditions).bodyContains) in cs;
    }
    if |cs| == 1 {
      assert cs[0] in cs;
      assert forall c :: c in cs <==> c == cs[0];
    }
  }

  lemma UsePrepend(taken: bool, s: Step, rest: seq<Step>)
    ensures CommandsUse(CommandsOf(When(taken, s) + rest)) ==
            (if taken then CommandUses(CommandOf(s)) else {}) + CommandsUse(CommandsOf(rest))
  {
    if taken {
      assert CommandsOf([s] + rest)[1..] == CommandsOf(rest);
    } else {
      assert When(taken, s) + rest == rest;
    }
  }

  lemma TargetNeeded(r: Rule, mailboxes: seq<Mailbox>)
    requires !RoleMissing(r, mailboxes)
    ensures TargetMailbox(r, mailboxes) != "" <==> NeedsFileInto(r)
  {
    hide TrimActions, RuleMailboxByRole;
  }

  lemma StepsUse(r: Rule, mailboxes: seq<Mailbox>)
    requires !RoleMissing(r, mailboxes)
    ensures CommandsUse(CommandsOf(StepList(r, mailboxes))) ==
            (if NeedsFileInto(r) then {"fileinto"} else {}) + (if NeedsFlags(r) then {"imap4flags"} else {})
            + (if NeedsRedirect(r) then {"redirect"} else {})
  {
    var a := TrimActions(r.actions);
    var target := TargetMailbox(r, mailboxes);
    TargetNeeded(r, mailboxes);
    assert NeedsFlags(r) == a.markRead && NeedsRedirect(r) == (a.redirect != "");
    StepListNested(r, mailboxes);
    hide TargetMailbox, TrimActions, RoleMissing, CommandsUse, CommandsOf, StepList, When, NeedsFileInto, NeedsFlags,
        NeedsRedirect;
    NestedUse(target != "", target, a.markRead, a.redirect != "", a.redirect, a.stop);
  }

  lemma NestedUse(moves: bool, target: string, marks: bool, redirects: bool, address: string, stops: bool)
    ensures var s3 := When(redirects, RedirectTo(address)) + (When(stops, StopHere) + []);
      CommandsUse(CommandsOf(When(moves, MoveTo(target)) + (When(marks, MarkSeen) + s3))) ==
      (if moves then {"fileinto"} else {}) + (if marks then {"imap4flags"} else {})
        + (if redirects then {"redirect"} else {})
  {
    assert CommandsUse(CommandsOf([])) == {};
    assert CommandUses(CommandOf(MoveTo(target))) == {"fileinto"} && CommandUses(CommandOf(MarkSeen)) == {"imap4flags"};
    assert CommandUses(CommandOf(RedirectTo(address))) == {"redirect"} && CommandUses(CommandOf(StopHere)) == {};
    hide CommandsUse, CommandUses, CommandsOf, CommandOf, When;
    var s4 := When(stops, StopHere) + [];
    var s3 := When(redirects, RedirectTo(address)) + s4;
    UsePrepend(stops, StopHere, []);
    UsePrepend(redirects, RedirectTo(address), s4);
    UsePrepend(marks, MarkSeen, s3);
    UsePrepend(moves, MoveTo(target), When(marks, MarkSeen) + s3);
    UnionNested({"fileinto"}, {"imap4flags"}, {"redirect"}, moves, marks, redirects);
  }

  lemma UnionNested(x: set<string>, y: set<string>, z: set<string>, p: bool, q: bool, r: bool)
    ensures (if p then x else {}) + ((if q then y else {}) + ((if r then z else {}) + ({} + {}))) ==
            (if p then x else {}) + (if q then y else {}) + (if r then z else {})
  {
  }

  lemma {:induction false} BlocksUse(rs: seq<Rule>, mailboxes: seq<Mailbox>)
    requires AllEmitted(rs, mailboxes)
    requires forall r :: r in rs ==> !Fails(r, mailboxes)
    ensures CommandsUse(BlockCommands(rs, mailboxes)) == Needs(rs)
  {
    hide HasCondition, StepList, ExpressionTest, RoleMissing, NeedsFileInto, NeedsFlags, NeedsRedirect, NeedsBody;
    if rs != [] {
      var r := rs[0];
      assert r in rs;
      assert Emitted(r, mailboxes) && !Fails(r, mailboxes);
      ExpressionUses(r);
      StepsUse(r, mailboxes);
      BlocksUse(rs[1..], mailboxes);
      assert BlockCommands(rs, mailboxes)[1..] == BlockCommands(rs[1..], mailboxes);
    }
  }

  lemma {:induction false} EmittedSubset(rules: seq<Rule>, mailboxes: seq<Mailbox>)
    ensures forall r :: r in EmittedRules(rules, mailboxes) ==> r in rules
  {
    hide Emitted;
    if rules != [] {
      EmittedSubset(rules[1..], mailboxes);
      assert rules == [rules[0]] + rules[1..];
    }
  }

  /** The script's first command requires, without repetition, exactly the capabilities that
      the rest of the script uses, or `fileinto` alone when it uses none. */
  lemma RequireExact(rules: seq<Rule>, mailboxes: seq<Mailbox>)
    requires Compile(rules, mailboxes).Script? && QuietNames(EmittedRules(rules, mailboxes))
    ensures var parsed := S.ReadScript(Compile(rules, mailboxes).text);
      && parsed.Some? && parsed.value != [] && parsed.value[0].Require?
      && var caps := parsed.value[0].capabilities; var used := CommandsUse(parsed.value[1..]);
      && (forall i, j :: 0 <= i < j < |caps| ==> caps[i] != caps[j])
      && (used != {} ==> (set c | c in caps) == used)
      && (used == {} ==> caps == ["fileinto"])
  {
    hide Fails, Emitted, ScriptText, Capabilities, BlockCommand, S.ReadScript, QuietName, ErrorFor;
    var rs := EmittedRules(rules, mailboxes);
    FailureExact(rules, mailboxes);
    EmittedRulesEmitted(rules, mailboxes);
    EmittedSubset(rules, mailboxes);
    ScriptParsesBack(rs, mailboxes);
    CapabilitiesExact(rs);
    BlocksUse(rs, mailboxes);
    var cmds := [S.Require(Capabilities(rs))] + BlockCommands(rs, mailboxes);
    assert cmds[1..] == BlockCommands(rs, mailboxes);
  }
}
