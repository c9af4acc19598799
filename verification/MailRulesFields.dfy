/** What the fields of a rule mean, one by one. Rules are read through trimming functions that the compiler and the
    meaning of rules share; here they are tied to the fields themselves, up to white space, outer dots and case. */
module MailRulesFields {
  import opened Text
  import opened Mailboxes
  import opened MailRules
  import S = Sieve
  import opened MailRulesProof
  import opened MailRulesMeaning

  // ----- domains -----

  predicate AllDots(s: string) {
    forall i :: 0 <= i < |s| ==> s[i] == '.'
  }

  predicate NoOuterDots(s: string) {
    s == "" || (s[0] != '.' && s[|s| - 1] != '.')
  }

  lemma {:induction false} DotsLeft(a: string, s: string)
    requires AllDots(a) && NoOuterDots(s)
    ensures TrimDotsLeft(a + s) == s
  {
    if a == "" {
      assert a + s == s;
    } else {
      assert (a + s)[1..] == a[1..] + s;
      DotsLeft(a[1..], s);
    }
  }

  lemma {:induction false} DotsTrim(a: string, s: string, b: string)
    requires AllDots(a) && AllDots(b) && NoOuterDots(s)
    ensures TrimDots(a + s + b) == s
    decreases |a| + |b|
  {
    var t := a + s + b;
    if b != "" {
      var n := |b| - 1;
      assert t[..|t| - 1] == a + s + b[..n];
      DotsTrim(a, s, b[..n]);
    } else if s == "" && a != "" {
      var n := |a| - 1;
      assert t[..|t| - 1] == a[..n] + s + b;
      DotsTrim(a[..n], s, b);
    } else {
      assert t == a + s;
      assert s != "" ==> t[|t| - 1] == s[|s| - 1];
      DotsLeft(a, s);
    }
  }

  /** `p` is the domain `d`, in any case, with dots around it and white space around those. */
  ghost predicate PadsDomain(p: string, d: string) {
    exists x, u, y :: AllDots(x) && AllDots(y) && EqualFold(u, d) && Pads(p, x + u + y)
  }

  lemma FoldKeepsEnds(u: string, d: string)
    requires EqualFold(u, d) && NoOuterDots(d) && Trimmed(d)
    ensures NoOuterDots(u) && Trimmed(u)
  {
    LowerKeepsTrimmed(u);
    LowerKeepsTrimmed(d);
    assert forall i :: 0 <= i < |u| ==> LowerChar(u[i]) == ToLower(u)[i] == ToLower(d)[i] == LowerChar(d[i]);
  }

  lemma DotsTrimmed(x: string, u: string, y: string)
    requires AllDots(x) && AllDots(y) && Trimmed(u)
    ensures Trimmed(x + u + y)
  {
    var t := x + u + y;
    if t != "" {
      assert !IsSpace('.');
      assert t[0] == '.' || (u != "" && t[0] == u[0]);
      assert t[|t| - 1] == '.' || (u != "" && t[|t| - 1] == u[|u| - 1]);
    }
  }

  lemma DomainTrims(p: string, d: string)
    requires PadsDomain(p, d) && Trimmed(d) && NoOuterDots(d) && ToLower(d) == d
    ensures ToLower(TrimDots(TrimSpace(p))) == d
  {
    var x, u, y :| AllDots(x) && AllDots(y) && EqualFold(u, d) && Pads(p, x + u + y);
    FoldKeepsEnds(u, d);
    DotsTrimmed(x, u, y);
    PadsTrim(p, x + u + y);
    DotsTrim(x, u, y);
  }

  // ----- conditions -----

  /** Conditions as they mean themselves. */
  predicate CleanConditions(c: Conditions) {
    && Trimmed(c.fromContains) && Trimmed(c.toContains) && Trimmed(c.subjectContains) && Trimmed(c.bodyContains)
    && Trimmed(c.fromDomainIs) && NoOuterDots(c.fromDomainIs) && ToLower(c.fromDomainIs) == c.fromDomainIs
  }

  /** Conditions as a user may have written them. */
  ghost predicate WrittenAs(p: Conditions, c: Conditions) {
    && Pads(p.fromContains, c.fromContains) && Pads(p.toContains, c.toContains)
    && Pads(p.subjectContains, c.subjectContains) && Pads(p.bodyContains, c.bodyContains)
    && PadsDomain(p.fromDomainIs, c.fromDomainIs)
  }

  /** White space in any field, and dots and capitals of the domain, do not matter; nothing else is changed. */
  lemma ConditionsAsWritten(p: Conditions, c: Conditions)
    requires CleanConditions(c) && WrittenAs(p, c)
    ensures TrimConditions(p) == c
  {
    PadsTrim(p.fromContains, c.fromContains);
    PadsTrim(p.toContains, c.toContains);
    PadsTrim(p.subjectContains, c.subjectContains);
    PadsTrim(p.bodyContains, c.bodyContains);
    DomainTrims(p.fromDomainIs, c.fromDomainIs);
    hide TrimSpace, TrimDots, Pads, PadsDomain, Trimmed, NoOuterDots;
  }

  /** Clean conditions stay as they are. */
  lemma CleanStays(c: Conditions)
    requires CleanConditions(c)
    ensures TrimConditions(c) == c
  {
    PadsItself(c.fromContains);
    PadsItself(c.toContains);
    PadsItself(c.subjectContains);
    PadsItself(c.bodyContains);
    PadsItself(c.fromDomainIs);
    assert PadsDomain(c.fromDomainIs, c.fromDomainIs) by {
      var d := c.fromDomainIs;
      assert "" + d + "" == d && AllDots("") && EqualFold(d, d);
    }
    hide Pads, PadsDomain;
    ConditionsAsWritten(c, c);
  }

  /** Whether a message is what the conditions ask for, field by field. */
  predicate Asked(c: Conditions, any: bool, m: S.Message) {
    var from, domain := HeaderHas(m, "from", c.fromContains), SenderDomainIs(m, c.fromDomainIs);
    var to, subject := RecipientHas(m, c.toContains), HeaderHas(m, "subject", c.subjectContains);
    var body := BodyHas(m, c.bodyContains);
    if any then
      || (c.fromContains != "" && from) || (c.fromDomainIs != "" && domain) || (c.toContains != "" && to)
      || (c.subjectContains != "" && subject) || (c.bodyContains != "" && body)
    else
      && c != Conditions("", "", "", "", "")
      && (c.fromContains == "" || from) && (c.fromDomainIs == "" || domain) && (c.toContains == "" || to)
      && (c.subjectContains == "" || subject) && (c.bodyContains == "" || body)
  }

  lemma AnyMode(r: Rule)
    ensures MatchesAny(r) <==> PadsFold(r.matchMode, "any")
  {
    assert ToLower("any") == "any";
    PadsFoldExact(r.matchMode, "any");
    hide TrimSpace, PadsFold;
  }

  /** A rule fires exactly when it is enabled and the message is what its conditions ask for. */
  lemma FiresAsAsked(r: Rule, c: Conditions, m: S.Message)
    requires CleanConditions(c) && WrittenAs(r.conditions, c)
    ensures Fires(r, m) <==> r.enabled && Asked(c, PadsFold(r.matchMode, "any"), m)
  {
    ConditionsAsWritten(r.conditions, c);
    AnyMode(r);
    hide TrimConditions, WrittenAs, CleanConditions, MatchesAny, PadsFold, HeaderHas, SenderDomainIs, RecipientHas,
        BodyHas;
  }

  // ----- actions -----

  predicate CleanActions(a: Actions) {
    Trimmed(a.moveToMailbox) && Trimmed(a.redirect) && Trimmed(a.moveToRole) && ToLower(a.moveToRole) == a.moveToRole
  }

  ghost predicate ActionsWrittenAs(p: Actions, a: Actions) {
    && Pads(p.moveToMailbox, a.moveToMailbox) && Pads(p.redirect, a.redirect) && PadsFold(p.moveToRole, a.moveToRole)
    && p.markRead == a.markRead && p.stop == a.stop
  }

  lemma NoName()
    ensures RoleFromName("") == ""
  {
    assert TrimSpace("") == "";
    assert forall w :: w != "" ==> !Text.Contains("", w);
    assert "inbox" != "" && "drafts" != "" && "draft" != "" && "sent" != "" && "trash" != "" && "deleted" != "";
    assert "archive" != "" && "all mail" != "" && "junk" != "" && "spam" != "";
  }

  /** White space, and capitals of the role, do not matter; nothing else is changed. */
  lemma ActionsAsWritten(p: Actions, a: Actions)
    requires CleanActions(a) && ActionsWrittenAs(p, a)
    ensures TrimActions(p) == a
  {
    PadsTrim(p.moveToMailbox, a.moveToMailbox);
    PadsTrim(p.redirect, a.redirect);
    PadsFoldTrim(p.moveToRole, a.moveToRole);
    TrimSpaceIdempotent(p.moveToRole);
    NoName();
    hide TrimSpace, Pads, PadsFold, Trimmed, RoleFromName;
    if a.moveToRole == "" {
      assert |ToLower(TrimSpace(p.moveToRole))| == 0;
    }
  }

  /** The role a mailbox goes by: its own, or what its name says. */
  function GoesBy(mb: Mailbox): string {
    if TrimSpace(mb.role) == "" then RoleFromName(mb.name) else ToLower(TrimSpace(mb.role))
  }

  lemma GoesByAggregate(mb: Mailbox)
    ensures NormalizeAggregateRole(mb.role, mb.name) == GoesBy(mb)
  {
    hide TrimSpace, RoleFromName;
  }

  predicate FirstBy(mailboxes: seq<Mailbox>, role: string, i: nat) {
    && i < |mailboxes| && GoesBy(mailboxes[i]) == role
    && forall j :: 0 <= j < i ==> GoesBy(mailboxes[j]) != role
  }

  /** The mailbox for a role is the first that goes by it. */
  lemma {:induction false} FirstGoesBy(mailboxes: seq<Mailbox>, target: string, i: nat)
    requires FirstBy(mailboxes, target, i)
    ensures FirstWithRole(mailboxes, target) == TrimSpace(mailboxes[i].name)
  {
    hide GoesBy, NormalizeAggregateRole, TrimSpace;
    GoesByAggregate(mailboxes[0]);
    if i > 0 {
      assert GoesBy(mailboxes[0]) != target;
      assert forall j :: 0 <= j < i - 1 ==> mailboxes[1..][j] == mailboxes[j + 1];
      FirstGoesBy(mailboxes[1..], target, i - 1);
    }
  }

  lemma {:induction false} NoneGoesBy(mailboxes: seq<Mailbox>, target: string)
    requires forall j :: 0 <= j < |mailboxes| ==> GoesBy(mailboxes[j]) != target
    ensures FirstWithRole(mailboxes, target) == ""
  {
    hide GoesBy, NormalizeAggregateRole, TrimSpace;
    if mailboxes != [] {
      GoesByAggregate(mailboxes[0]);
      assert GoesBy(mailboxes[0]) != target;
      assert forall j :: 0 <= j < |mailboxes[1..]| ==> mailboxes[1..][j] == mailboxes[j + 1];
      NoneGoesBy(mailboxes[1..], target);
    }
  }

  /** `name` is the name of the first mailbox that goes by the role, or empty when none does. */
  ghost predicate NamesRole(mailboxes: seq<Mailbox>, role: string, name: string) {
    || (name == "" && forall j :: 0 <= j < |mailboxes| ==> GoesBy(mailboxes[j]) != role)
    || (exists i: nat :: FirstBy(mailboxes, role, i) && name == TrimSpace(mailboxes[i].name))
  }

  lemma RoleMailboxNamed(mailboxes: seq<Mailbox>, role: string, name: string)
    requires role != "" && Trimmed(role) && ToLower(role) == role && NamesRole(mailboxes, role, name)
    ensures RuleMailboxByRole(mailboxes, role) == name
  {
    TrimmedIsFixed(role);
    assert NormalizeAggregateRole(role, role) == role by { hide TrimSpace, RoleFromName; }
    hide TrimSpace, GoesBy, NormalizeAggregateRole, FirstWithRole, FirstBy;
    if i: nat :| FirstBy(mailboxes, role, i) && name == TrimSpace(mailboxes[i].name) {
      FirstGoesBy(mailboxes, role, i);
    } else {
      NoneGoesBy(mailboxes, role);
    }
  }

  /** What the actions ask for, in order; `named` is the mailbox of the role. */
  function AskedEffects(a: Actions, named: string): seq<S.Action> {
    var target := if a.moveToMailbox != "" then a.moveToMailbox else if a.moveToRole != "" then named else "";
    (if target == "" then [] else [S.FiledInto(target)]) + (if a.markRead then [S.FlagsAdded(["\\Seen"])] else [])
      + (if a.redirect == "" then [] else [S.RedirectedTo(a.redirect)])
  }

  lemma EffectsAsAsked(r: Rule, mailboxes: seq<Mailbox>, a: Actions, named: string)
    requires CleanActions(a) && ActionsWrittenAs(r.actions, a) && NamesRole(mailboxes, a.moveToRole, named)
    ensures Effects(r, mailboxes) == AskedEffects(a, named) && r.actions.stop == a.stop
  {
    ActionsAsWritten(r.actions, a);
    if a.moveToRole != "" {
      RoleMailboxNamed(mailboxes, a.moveToRole, named);
    }
    hide TrimActions, ActionsWrittenAs, CleanActions, NamesRole, RuleMailboxByRole;
  }

  /** A rule fails to compile exactly when it has a condition and asks for a role of which no mailbox has a name. */
  lemma FailsAsAsked(r: Rule, c: Conditions, a: Actions, mailboxes: seq<Mailbox>, named: string)
    requires CleanConditions(c) && WrittenAs(r.conditions, c)
    requires CleanActions(a) && ActionsWrittenAs(r.actions, a) && NamesRole(mailboxes, a.moveToRole, named)
    ensures Fails(r, mailboxes) <==>
      && r.enabled && c != Conditions("", "", "", "", "")
      && a.moveToMailbox == "" && a.moveToRole != "" && named == ""
  {
    ConditionsAsWritten(r.conditions, c);
    ActionsAsWritten(r.actions, a);
    if a.moveToRole != "" {
      RoleMailboxNamed(mailboxes, a.moveToRole, named);
    }
    hide TrimActions, TrimConditions, ActionsWrittenAs, CleanActions, NamesRole, RuleMailboxByRole, WrittenAs,
        CleanConditions;
  }

  /** One rule, from its fields to what its script does to a message. */
  lemma ScriptAsAsked(r: Rule, c: Conditions, a: Actions, mailboxes: seq<Mailbox>, named: string, m: S.Message)
    requires CleanConditions(c) && WrittenAs(r.conditions, c) && QuietName(r)
    requires CleanActions(a) && ActionsWrittenAs(r.actions, a) && NamesRole(mailboxes, a.moveToRole, named)
    requires Compile([r], mailboxes).Script?
    ensures var read := S.ReadScript(Compile([r], mailboxes).text);
      && read.Some?
      && S.Run(read.value, m).trace ==
           if r.enabled && Asked(c, PadsFold(r.matchMode, "any"), m) then AskedEffects(a, named) else []
  {
    FiresAsAsked(r, c, m);
    EffectsAsAsked(r, mailboxes, a, named);
    OneRule(r, mailboxes, m);
    hide *;
    CompilerCorrect([r], mailboxes, m);
  }

  lemma OneRule(r: Rule, mailboxes: seq<Mailbox>, m: S.Message)
    requires QuietName(r)
    ensures QuietNames(EmittedRules([r], mailboxes))
    ensures ApplyRules([r], mailboxes, m) == if Fires(r, m) then Effects(r, mailboxes) else []
  {
    assert [r][1..] == [];
    hide Emitted, QuietName, Fires, Effects;
    assert EmittedRules([], mailboxes) == [] && ApplyRules([], mailboxes, m) == [];
  }
}
