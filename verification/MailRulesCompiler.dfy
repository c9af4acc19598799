/** The compiler as the source runs it: fragments appended to lists, blocks and required
    capabilities gathered rule by rule. Each method is proved against the text functions
    of module MailRules. */
module MailRulesCompiler {
  import opened Text
  import opened Mailboxes
  import opened MailRules

  method AppendFragment(fragments: seq<string>, key: string, c: Condition, ghost listed: seq<Condition>)
    returns (out: seq<string>)
    requires fragments == Texts(listed)
    ensures out == Texts(listed + Given(key, c))
  {
    hide ConditionText;
    out := fragments;
    if key != "" {
      out := out + [ConditionText(c)];
    } else {
      assert listed + Given(key, c) == listed;
    }
  }

  method CompileConditionFragments(r: Rule) returns (out: seq<string>)
    ensures out == Texts(ConditionList(r))
    ensures out != [] <==> HasCondition(r)
  {
    hide ConditionText, TrimConditions, Texts;
    var c := TrimConditions(r.conditions);
    out := AppendFragment([], c.fromContains, FromContains(c.fromContains), []);
    ghost var l1 := [] + Given(c.fromContains, FromContains(c.fromContains));
    out := AppendFragment(out, c.fromDomainIs, FromDomainIs(c.fromDomainIs), l1);
    ghost var l2 := l1 + Given(c.fromDomainIs, FromDomainIs(c.fromDomainIs));
    out := AppendFragment(out, c.toContains, ToContains(c.toContains), l2);
    ghost var l3 := l2 + Given(c.toContains, ToContains(c.toContains));
    out := AppendFragment(out, c.subjectContains, SubjectContains(c.subjectContains), l3);
    ghost var l4 := l3 + Given(c.subjectContains, SubjectContains(c.subjectContains));
    out := AppendFragment(out, c.bodyContains, BodyContains(c.bodyContains), l4);
    assert l1 == Given(c.fromContains, FromContains(c.fromContains));
    assert l4 + Given(c.bodyContains, BodyContains(c.bodyContains)) == ConditionList(r);
  }

  /** Fails exactly when the rule's role has no mailbox. */
  method CompileActionFragments(r: Rule, mailboxes: seq<Mailbox>)
    returns (out: seq<string>, error: Option<CompileError>)
    ensures error.Some? <==> RoleMissing(r, mailboxes)
    ensures error.Some? ==> error.value == ErrorFor(r)
    ensures error.None? ==> out == StepTexts(StepList(r, mailboxes))
  {
    TrimSpaceIdempotent(r.actions.moveToMailbox);
    hide StepText, TrimSpace, NormalizeAggregateRole, RuleMailboxByRole, StepTexts;
    var a := TrimActions(r.actions);
    out, error := [], None;
    var target := TrimSpace(a.moveToMailbox);
    if target == "" && a.moveToRole != "" {
      target := RuleMailboxByRole(mailboxes, a.moveToRole);
      if target == "" {
        if a.moveToRole == "junk" || a.moveToRole == "trash" {
          return [], Some(SpecialMailboxRequired(a.moveToRole));
        }
        return [], Some(MailboxUnavailable(a.moveToRole));
      }
    }
    assert target == TargetMailbox(r, mailboxes);
    hide TrimActions, RoleMissing, TargetMailbox;
    ghost var steps: seq<Step> := [];
    StepTextsNone();
    if target != "" {
      StepTextsSnoc(steps, MoveTo(target));
      out, steps := out + [StepText(MoveTo(target))], steps + [MoveTo(target)];
    }
    if a.markRead {
      StepTextsSnoc(steps, MarkSeen);
      out, steps := out + [StepText(MarkSeen)], steps + [MarkSeen];
    }
    if a.redirect != "" {
      StepTextsSnoc(steps, RedirectTo(a.redirect));
      out, steps := out + [StepText(RedirectTo(a.redirect))], steps + [RedirectTo(a.redirect)];
    }
    if a.stop {
      StepTextsSnoc(steps, StopHere);
      out, steps := out + [StepText(StopHere)], steps + [StopHere];
    }
    assert steps == StepList(r, mailboxes);
  }

  lemma StepTextsNone()
    ensures StepTexts([]) == []
  {
  }

  lemma StepTextsSnoc(ss: seq<Step>, s: Step)
    ensures StepTexts(ss + [s]) == StepTexts(ss) + [StepText(s)]
  {
    hide StepText;
  }

  lemma {:induction false} EmittedAppend(rules: seq<Rule>, i: nat, mailboxes: seq<Mailbox>)
    requires i < |rules|
    ensures EmittedRules(rules[..i + 1], mailboxes) ==
            EmittedRules(rules[..i], mailboxes) + if Emitted(rules[i], mailboxes) then [rules[i]] else []
    ensures FirstFailing(rules[..i], mailboxes).None? ==>
              FirstFailing(rules[..i + 1], mailboxes) == if Fails(rules[i], mailboxes) then Some(rules[i]) else None
  {
    hide Emitted, Fails;
    if i == 0 {
      assert rules[..1] == [rules[0]];
    } else {
      assert rules[..i + 1][1..] == rules[1..][..i];
      assert rules[..i][1..] == rules[1..][..i - 1];
      EmittedAppend(rules[1..], i - 1, mailboxes);
    }
  }

  lemma {:induction false} FirstFailingPrefix(rules: seq<Rule>, i: nat, mailboxes: seq<Mailbox>)
    requires i <= |rules| && FirstFailing(rules[..i], mailboxes).Some?
    ensures FirstFailing(rules, mailboxes) == FirstFailing(rules[..i], mailboxes)
  {
    hide Fails;
    if !Fails(rules[0], mailboxes) {
      assert rules[..i][1..] == rules[1..][..i - 1];
      FirstFailingPrefix(rules[1..], i - 1, mailboxes);
    }
  }

  lemma {:induction false} NeedsAppend(rs: seq<Rule>, r: Rule)
    ensures Needs(rs + [r]) == Needs(rs) + RuleNeeds(r)
  {
    hide RuleNeeds;
    if rs != [] {
      assert (rs + [r])[1..] == rs[1..] + [r];
      NeedsAppend(rs[1..], r);
    }
  }

  method ListRequires(wanted: set<string>) returns (requires_: seq<string>)
    ensures requires_ == InOrder(CAPABILITY_ORDER, wanted)
  {
    hide CAPABILITY_ORDER;
    requires_ := [];
    for i := 0 to |CAPABILITY_ORDER|
      invariant requires_ + InOrder(CAPABILITY_ORDER[i..], wanted) == InOrder(CAPABILITY_ORDER, wanted)
    {
      if CAPABILITY_ORDER[i] in wanted {
        requires_ := requires_ + [CAPABILITY_ORDER[i]];
      }
      assert CAPABILITY_ORDER[i..][1..] == CAPABILITY_ORDER[i + 1..];
    }
  }

  method AddRequires(requiresSet: set<string>, rule: Rule) returns (out: set<string>)
    ensures out == requiresSet + RuleNeeds(rule)
  {
    out := requiresSet;
    if TrimActions(rule.actions).moveToMailbox != "" || TrimActions(rule.actions).moveToRole != "" {
      out := out + {"fileinto"};
    }
    if TrimActions(rule.actions).markRead {
      out := out + {"imap4flags"};
    }
    if TrimActions(rule.actions).redirect != "" {
      out := out + {"redirect"};
    }
    if TrimConditions(rule.conditions).bodyContains != "" {
      out := out + {"body"};
    }
  }

  method FormatBlock(rule: Rule, conditions: seq<string>, actions: seq<string>, ghost mailboxes: seq<Mailbox>)
    returns (block: string)
    requires conditions == Texts(ConditionList(rule)) && conditions != []
    requires actions == StepTexts(StepList(rule, mailboxes))
    ensures block == BlockText(rule, mailboxes)
  {
    hide TrimSpace, SieveEscape, Join, ConditionList, StepList;
    var expression := conditions[0];
    if |conditions| > 1 {
      var joiner := "allof";
      if EqualFold(TrimSpace(rule.matchMode), "any") {
        joiner := "anyof";
      }
      expression := joiner + "(" + Join(conditions, ", ") + ")";
    }
    block := "# " + SieveEscape(TrimSpace(rule.name)) + "\nif " + expression + " {\n  " + Join(actions, "\n  ") + "\n}";
  }

  /** Compiles a rule list to script text, stopping at the first rule that fails. */
  method CompileManagedMailRules(rules: seq<Rule>, mailboxes: seq<Mailbox>) returns (result: Compiled)
    ensures result == Compile(rules, mailboxes)
  {
    hide BlockText, RuleNeeds, StepList, ConditionList, HasCondition, RoleMissing, ErrorFor, Join, Literals;
    var requiresSet: set<string> := {};
    var blocks: seq<string> := [];
    ghost var emitted: seq<Rule> := [];
    for i := 0 to |rules|
      invariant FirstFailing(rules[..i], mailboxes).None?
      invariant emitted == EmittedRules(rules[..i], mailboxes)
      invariant blocks == BlockTexts(emitted, mailboxes)
      invariant requiresSet == Needs(emitted)
    {
      var rule := rules[i];
      EmittedAppend(rules, i, mailboxes);
      if !rule.enabled { continue; }
      var conditions := CompileConditionFragments(rule);
      if |conditions| == 0 { continue; }
      var actions, err := CompileActionFragments(rule, mailboxes);
      if err.Some? {
        FirstFailingPrefix(rules, i + 1, mailboxes);
        return Failed(err.value);
      }
      if |actions| == 0 { continue; }
      NeedsAppend(emitted, rule);
      requiresSet := AddRequires(requiresSet, rule);
      var block := FormatBlock(rule, conditions, actions, mailboxes);
      blocks, emitted := blocks + [block], emitted + [rule];
    }
    assert rules[..|rules|] == rules;
    var listed := ListRequires(requiresSet);
    if |listed| == 0 {
      listed := ["fileinto"];
    }
    var lines := ["require [" + Join(Literals(listed), ", ") + "];", "", MANAGED_NOTE];
    if |blocks| == 0 {
      lines := lines + [EMPTY_NOTE];
    } else {
      lines := lines + [Join(blocks, "\n\n")];
    }
    assert lines == ["require [" + Join(Literals(Capabilities(emitted)), ", ") + "];", "", MANAGED_NOTE,
        if emitted == [] then EMPTY_NOTE else Join(BlockTexts(emitted, mailboxes), "\n\n")];
    result := Script(Join(lines, "\n"));
  }
}
