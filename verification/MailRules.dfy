/** Structured mail rules, what they mean, and the code that compiles them to the text
    of a Sieve script: internal/api/router_mail_rules.go. */
module MailRules {
  import opened Text
  import opened Mailboxes
  import S = Sieve
  import Lists

  datatype Conditions = Conditions(
    fromContains: string, fromDomainIs: string, toContains: string, subjectContains: string, bodyContains: string)

  datatype Actions = Actions(
    moveToMailbox: string, moveToRole: string, markRead: bool, redirect: string, stop: bool)

  datatype Rule = Rule(name: string, enabled: bool, matchMode: string, conditions: Conditions, actions: Actions)

  /** `strings.Trim(s, ".")`. */
  function TrimDotsLeft(s: string): string {
    if s != "" && s[0] == '.' then TrimDotsLeft(s[1..]) else s
  }

  function TrimDots(s: string): string
    decreases |s|
  {
    if s != "" && s[|s| - 1] == '.' then TrimDots(s[..|s| - 1]) else TrimDotsLeft(s)
  }

  function TrimConditions(c: Conditions): Conditions {
    Conditions(TrimSpace(c.fromContains), ToLower(TrimDots(TrimSpace(c.fromDomainIs))), TrimSpace(c.toContains),
               TrimSpace(c.subjectContains), TrimSpace(c.bodyContains))
  }

  function TrimActions(a: Actions): Actions {
    Actions(TrimSpace(a.moveToMailbox), NormalizeAggregateRole(TrimSpace(a.moveToRole), TrimSpace(a.moveToRole)),
            a.markRead, TrimSpace(a.redirect), a.stop)
  }

  /** The name of the first mailbox holding a role; empty when there is none or its name is blank. */
  function RuleMailboxByRole(mailboxes: seq<Mailbox>, role: string): string {
    var target := NormalizeAggregateRole(role, role);
    if target == "" then "" else FirstWithRole(mailboxes, target)
  }

  function FirstWithRole(mailboxes: seq<Mailbox>, target: string): string {
    if mailboxes == [] then ""
    else if NormalizeAggregateRole(mailboxes[0].role, mailboxes[0].name) == target then TrimSpace(mailboxes[0].name)
    else FirstWithRole(mailboxes[1..], target)
  }

  // ----- what a rule means, without any script -----

  predicate HeaderHas(m: S.Message, name: string, key: string) {
    exists h :: h in m.headers && EqualFold(h.name, name) && Text.Contains(ToLower(h.value), ToLower(key))
  }

  predicate RecipientHas(m: S.Message, key: string) {
    exists a :: a in m.addresses
      && (EqualFold(a.header, "to") || EqualFold(a.header, "cc") || EqualFold(a.header, "bcc"))
      && Text.Contains(ToLower(a.local + "@" + a.domain), ToLower(key))
  }

  predicate SenderDomainIs(m: S.Message, domain: string) {
    exists a :: a in m.addresses && EqualFold(a.header, "from") && EqualFold(a.domain, domain)
  }

  predicate BodyHas(m: S.Message, key: string) {
    Text.Contains(ToLower(m.body), ToLower(key))
  }

  predicate HasCondition(r: Rule) {
    var c := TrimConditions(r.conditions);
    c.fromContains != "" || c.fromDomainIs != "" || c.toContains != "" || c.subjectContains != ""
      || c.bodyContains != ""
  }

  predicate MatchesAny(r: Rule) {
    EqualFold(TrimSpace(r.matchMode), "any")
  }

  /** Whether an enabled rule applies to a message: blank conditions do not count, and a
      rule with no condition at all never applies. */
  predicate Fires(r: Rule, m: S.Message) {
    var c := TrimConditions(r.conditions);
    r.enabled && HasCondition(r) &&
    if MatchesAny(r) then
      || (c.fromContains != "" && HeaderHas(m, "from", c.fromContains))
      || (c.fromDomainIs != "" && SenderDomainIs(m, c.fromDomainIs))
      || (c.toContains != "" && RecipientHas(m, c.toContains))
      || (c.subjectContains != "" && HeaderHas(m, "subject", c.subjectContains))
      || (c.bodyContains != "" && BodyHas(m, c.bodyContains))
    else
      && (c.fromContains != "" ==> HeaderHas(m, "from", c.fromContains))
      && (c.fromDomainIs != "" ==> SenderDomainIs(m, c.fromDomainIs))
      && (c.toContains != "" ==> RecipientHas(m, c.toContains))
      && (c.subjectContains != "" ==> HeaderHas(m, "subject", c.subjectContains))
      && (c.bodyContains != "" ==> BodyHas(m, c.bodyContains))
  }

  /** The mailbox a rule files into: the named one, otherwise the one holding the named role. */
  function TargetMailbox(r: Rule, mailboxes: seq<Mailbox>): string {
    var a := TrimActions(r.actions);
    if a.moveToMailbox != "" then a.moveToMailbox
    else if a.moveToRole != "" then RuleMailboxByRole(mailboxes, a.moveToRole)
    else ""
  }

  /** What a rule that fires does, in order. */
  function Effects(r: Rule, mailboxes: seq<Mailbox>): seq<S.Action> {
    var a := TrimActions(r.actions);
    var target := TargetMailbox(r, mailboxes);
    (if target != "" then [S.FiledInto(target)] else [])
    + (if a.markRead then [S.FlagsAdded(["\\Seen"])] else [])
    + (if a.redirect != "" then [S.RedirectedTo(a.redirect)] else [])
  }

  /** The rules applied to a message one after the other; a firing `stop` ends the run. */
  function ApplyRules(rules: seq<Rule>, mailboxes: seq<Mailbox>, m: S.Message): seq<S.Action> {
    if rules == [] then []
    else if !Fires(rules[0], m) then ApplyRules(rules[1..], mailboxes, m)
    else if rules[0].actions.stop then Effects(rules[0], mailboxes)
    else Effects(rules[0], mailboxes) + ApplyRules(rules[1..], mailboxes, m)
  }

  // ----- the emitted text -----

  /** Backslash and double quote each get a backslash in front. */
  function SieveEscape(s: string): string {
    if s == "" then ""
    else if s[0] == '\\' || s[0] == '"' then ['\\', s[0]] + SieveEscape(s[1..])
    else [s[0]] + SieveEscape(s[1..])
  }

  function Quote(s: string): string {
    "\"" + SieveEscape(s) + "\""
  }

  datatype Condition =
    | FromContains(key: string)
    | FromDomainIs(key: string)
    | ToContains(key: string)
    | SubjectContains(key: string)
    | BodyContains(key: string)

  function ConditionText(c: Condition): string {
    match c
    case FromContains(k) => "header :contains \"from\" " + Quote(k)
    case FromDomainIs(k) => "address :domain :is \"from\" " + Quote(k)
    case ToContains(k) => "address :contains [\"to\", \"cc\", \"bcc\"] " + Quote(k)
    case SubjectContains(k) => "header :contains \"subject\" " + Quote(k)
    case BodyContains(k) => "body :contains " + Quote(k)
  }

  /** The non-blank conditions of a rule, in the order they are emitted. */
  function ConditionList(r: Rule): seq<Condition> {
    var c := TrimConditions(r.conditions);
    Given(c.fromContains, FromContains(c.fromContains)) + Given(c.fromDomainIs, FromDomainIs(c.fromDomainIs))
    + Given(c.toContains, ToContains(c.toContains)) + Given(c.subjectContains, SubjectContains(c.subjectContains))
    + Given(c.bodyContains, BodyContains(c.bodyContains))
  }

  /** A condition counts only when its key is not empty. */
  function Given(key: string, c: Condition): seq<Condition> {
    if key != "" then [c] else []
  }

  datatype Step = MoveTo(mailbox: string) | MarkSeen | RedirectTo(address: string) | StopHere

  function StepText(s: Step): string {
    match s
    case MoveTo(mb) => "fileinto " + Quote(mb) + ";"
    case MarkSeen => "addflag \"\\\\Seen\";"
    case RedirectTo(a) => "redirect " + Quote(a) + ";"
    case StopHere => "stop;"
  }

  function StepList(r: Rule, mailboxes: seq<Mailbox>): seq<Step> {
    var a := TrimActions(r.actions);
    var target := TargetMailbox(r, mailboxes);
    When(target != "", MoveTo(target)) + When(a.markRead, MarkSeen)
    + When(a.redirect != "", RedirectTo(a.redirect)) + When(a.stop, StopHere)
  }

  function When(taken: bool, s: Step): seq<Step> {
    if taken then [s] else []
  }

  function Texts(cs: seq<Condition>): (r: seq<string>)
    ensures |r| == |cs| && forall i :: 0 <= i < |cs| ==> r[i] == ConditionText(cs[i])
  {
    seq(|cs|, i requires 0 <= i < |cs| => ConditionText(cs[i]))
  }

  function StepTexts(ss: seq<Step>): (r: seq<string>)
    ensures |r| == |ss| && forall i :: 0 <= i < |ss| ==> r[i] == StepText(ss[i])
  {
    seq(|ss|, i requires 0 <= i < |ss| => StepText(ss[i]))
  }

  datatype CompileError = SpecialMailboxRequired(role: string) | MailboxUnavailable(role: string)

  datatype Compiled = Script(text: string) | Failed(error: CompileError)

  /** The rule names a role that no usable mailbox holds. */
  predicate RoleMissing(r: Rule, mailboxes: seq<Mailbox>) {
    var a := TrimActions(r.actions);
    a.moveToMailbox == "" && a.moveToRole != "" && RuleMailboxByRole(mailboxes, a.moveToRole) == ""
  }

  predicate Fails(r: Rule, mailboxes: seq<Mailbox>) {
    r.enabled && HasCondition(r) && RoleMissing(r, mailboxes)
  }

  function ErrorFor(r: Rule): CompileError {
    var role := TrimActions(r.actions).moveToRole;
    if role == "junk" || role == "trash" then SpecialMailboxRequired(role) else MailboxUnavailable(role)
  }

  /** A rule gets a block in the script. */
  predicate Emitted(r: Rule, mailboxes: seq<Mailbox>) {
    r.enabled && HasCondition(r) && StepList(r, mailboxes) != []
  }

  function EmittedRules(rules: seq<Rule>, mailboxes: seq<Mailbox>): seq<Rule> {
    if rules == [] then []
    else (if Emitted(rules[0], mailboxes) then [rules[0]] else []) + EmittedRules(rules[1..], mailboxes)
  }

  function ExpressionText(r: Rule): string {
    var cs := ConditionList(r);
    if |cs| == 1 then ConditionText(cs[0])
    else (if MatchesAny(r) then "anyof" else "allof") + "(" + Join(Texts(cs), ", ") + ")"
  }

  function BlockText(r: Rule, mailboxes: seq<Mailbox>): string {
    "# " + SieveEscape(TrimSpace(r.name)) + "\nif " + ExpressionText(r) + " {\n  "
    + Join(StepTexts(StepList(r, mailboxes)), "\n  ") + "\n}"
  }

  function BlockTexts(rs: seq<Rule>, mailboxes: seq<Mailbox>): (t: seq<string>)
    ensures |t| == |rs| && forall i :: 0 <= i < |rs| ==> t[i] == BlockText(rs[i], mailboxes)
  {
    Lists.Map(rs, (r: Rule) => BlockText(r, mailboxes))
  }

  // Capabilities, in the fixed order of the require line.

  predicate NeedsFileInto(r: Rule) {
    TrimActions(r.actions).moveToMailbox != "" || TrimActions(r.actions).moveToRole != ""
  }

  predicate NeedsFlags(r: Rule) {
    TrimActions(r.actions).markRead
  }

  predicate NeedsRedirect(r: Rule) {
    TrimActions(r.actions).redirect != ""
  }

  predicate NeedsBody(r: Rule) {
    TrimConditions(r.conditions).bodyContains != ""
  }

  function RuleNeeds(r: Rule): set<string> {
    (if NeedsFileInto(r) then {"fileinto"} else {}) + (if NeedsFlags(r) then {"imap4flags"} else {})
    + (if NeedsRedirect(r) then {"redirect"} else {}) + (if NeedsBody(r) then {"body"} else {})
  }

  function Needs(rs: seq<Rule>): set<string> {
    if rs == [] then {} else RuleNeeds(rs[0]) + Needs(rs[1..])
  }

  const CAPABILITY_ORDER := ["fileinto", "imap4flags", "redirect", "body"]

  function InOrder(order: seq<string>, wanted: set<string>): seq<string> {
    if order == [] then []
    else (if order[0] in wanted then [order[0]] else []) + InOrder(order[1..], wanted)
  }

  function Capabilities(rs: seq<Rule>): seq<string> {
    var listed := InOrder(CAPABILITY_ORDER, Needs(rs));
    if listed == [] then ["fileinto"] else listed
  }

  function Literals(cs: seq<string>): (r: seq<string>)
    ensures |r| == |cs| && forall i :: 0 <= i < |cs| ==> r[i] == "\"" + cs[i] + "\""
  {
    seq(|cs|, i requires 0 <= i < |cs| => "\"" + cs[i] + "\"")
  }

  const MANAGED_NOTE := "# Managed by Despatch. " + "Edit structured rules " + "in Settings > Mail > Rules & Junk."
  const EMPTY_NOTE := "# No enabled rules."

  /** The script for the rules that get a block. */
  function ScriptText(rs: seq<Rule>, mailboxes: seq<Mailbox>): string {
    Join([
      "require [" + Join(Literals(Capabilities(rs)), ", ") + "];",
      "",
      MANAGED_NOTE,
      if rs == [] then EMPTY_NOTE else Join(BlockTexts(rs, mailboxes), "\n\n")], "\n")
  }

  /** The whole compilation: the first failing rule's error, or the script. */
  function Compile(rules: seq<Rule>, mailboxes: seq<Mailbox>): Compiled {
    var failing := FirstFailing(rules, mailboxes);
    if failing.Some? then Failed(ErrorFor(failing.value))
      else Script(ScriptText(EmittedRules(rules, mailboxes), mailboxes))
  }

  function FirstFailing(rules: seq<Rule>, mailboxes: seq<Mailbox>): Option<Rule> {
    if rules == [] then None
    else if Fails(rules[0], mailboxes) then Some(rules[0])
    else FirstFailing(rules[1..], mailboxes)
  }
}
