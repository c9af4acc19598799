/** Reply funnels: several source accounts whose mail one collector account gathers
    (internal/api/router_mail_funnels.go, internal/store/reply_funnels.go,
    internal/store/mail_rules.go). An upsert brings the rows of a funnel, and the redirect rules
    they point to, to the state a request asks for. */
module ReplyFunnels {
  import opened Text
  import opened Lists
  import R = MailRules

  type RuleID = nat

  datatype StoredRule = StoredRule(id: RuleID, account: string, rule: R.Rule)

  datatype Role = Collector | Source

  /** Rows of one funnel are unique in role and account. */
  datatype Key = Key(role: Role, account: string)

  datatype Forwarding = Forwarding(state: string, notes: string, checkedAt: int, confirmedAt: int)

  const IDLE := Forwarding("not_required", "", 0, 0)

  datatype Row = Row(position: int, identity: string, rule: Option<RuleID>, error: string, forwarding: Forwarding)

  datatype Mode = Virtual | Managed | Assisted

  datatype Account = Account(login: string, canForward: bool)

  /** The tables an upsert touches. Rules stand in listing order: a new rule takes the position
      after all others of its account, and an update keeps its position. */
  datatype Db = Db(rows: map<Key, Row>, rules: seq<StoredRule>, next: RuleID)

  datatype Request = Request(name: string, collector: string, sources: seq<string>, mode: Mode)

  datatype Error = CollectorRequired | NoSource | SourceUnavailable | ForwardingUnsupported | NameRequired

  // ----- the sources of a request -----

  function SourcesFrom(raw: seq<string>, collector: string, seen: set<string>): seq<string> {
    if raw == [] then []
    else
      var id := TrimSpace(raw[0]);
      if id == "" || id == collector || id in seen then SourcesFrom(raw[1..], collector, seen)
      else [id] + SourcesFrom(raw[1..], collector, seen + {id})
  }

  function Sources(q: Request): seq<string> {
    SourcesFrom(q.sources, TrimSpace(q.collector), {})
  }

  method NormalizeSourceAccountIDs(raw: seq<string>, collectorAccountID: string) returns (out: seq<string>)
    ensures out == SourcesFrom(raw, TrimSpace(collectorAccountID), {})
  {
    hide TrimSpace;
    var collector := TrimSpace(collectorAccountID);
    var seen: set<string> := {};
    out := [];
    for i := 0 to |raw|
      invariant out + SourcesFrom(raw[i..], collector, seen) == SourcesFrom(raw, collector, {})
    {
      assert raw[i..][1..] == raw[i + 1..];
      var id := TrimSpace(raw[i]);
      if id == "" || id == collector {
        continue;
      }
      if id in seen {
        continue;
      }
      seen := seen + {id};
      out := out + [id];
    }
  }

  predicate Mentions(raw: seq<string>, id: string) {
    exists i :: 0 <= i < |raw| && TrimSpace(raw[i]) == id
  }

  /** The sources are the distinct trimmed ids, blanks and the collector left out. */
  lemma {:induction false} SourcesExact(raw: seq<string>, collector: string, seen: set<string>)
    ensures var s := SourcesFrom(raw, collector, seen);
      && Distinct(s)
      && (forall id :: id in s <==> id != "" && id != collector && id !in seen && Mentions(raw, id))
  {
    if raw != [] {
      var id := TrimSpace(raw[0]);
      hide TrimSpace;
      var skip := id == "" || id == collector || id in seen;
      var seen' := if skip then seen else seen + {id};
      SourcesExact(raw[1..], collector, seen');
      var tail := SourcesFrom(raw[1..], collector, seen');
      forall x ensures Mentions(raw, x) <==> x == id || Mentions(raw[1..], x) {
        if i :| 0 <= i < |raw[1..]| && TrimSpace(raw[1..][i]) == x {
          assert TrimSpace(raw[i + 1]) == x;
        }
        if i :| 0 < i < |raw| && TrimSpace(raw[i]) == x {
          assert raw[1..][i - 1] == raw[i];
        }
      }
      hide Mentions;
      if !skip {
        assert forall i :: 0 <= i < |tail| ==> tail[i] in tail;
      }
    }
  }

  /** What is wrong with a request, in the order the code looks. */
  function Refusal(q: Request, accounts: map<string, Account>): Option<Error> {
    var sources := Sources(q);
    if TrimSpace(q.collector) !in accounts then Some(CollectorRequired)
    else if sources == [] then Some(NoSource)
    else if exists s :: s in sources && s !in accounts then Some(SourceUnavailable)
    else if q.mode.Assisted? && exists s :: s in sources && !accounts[s].canForward then Some(ForwardingUnsupported)
    else if TrimSpace(q.name) == "" then Some(NameRequired)
    else None
  }

  // ----- redirect rules -----

  function RuleName(name: string): string {
    "Despatch Funnel \U{00B7} " + (if TrimSpace(name) == "" then "Collector" else TrimSpace(name))
  }

  /** The rule that sends an account's mail to the collector. */
  function Wanted(name: string, login: string, collectorLogin: string): R.Rule {
    R.Rule(RuleName(name), true, "all",
           R.Conditions("", "", TrimSpace(login), "", ""),
           R.Actions("", "", false, TrimSpace(collectorLogin), true))
  }

  /** A rule that is taken for the funnel's own although no row points to it. */
  predicate Alike(r: R.Rule, w: R.Rule) {
    && TrimSpace(r.name) == w.name
    && TrimSpace(r.conditions.toContains) == w.conditions.toContains
    && TrimSpace(r.actions.redirect) == w.actions.redirect
  }

  /** A rule that need not be rewritten. */
  predicate Sound(r: R.Rule, w: R.Rule) {
    && Alike(r, w)
    && r.enabled
    && TrimSpace(r.matchMode) == "all"
    && r.actions.stop
    && !r.actions.markRead
    && TrimSpace(r.actions.moveToMailbox) == ""
    && TrimSpace(r.actions.moveToRole) == ""
  }

  /** What the store makes of a rule it is given. */
  function Written(r: R.Rule): R.Rule {
    r.(name := TrimSpace(r.name), matchMode := if EqualFold(TrimSpace(r.matchMode), "any") then "any" else "all")
  }

  function First<T>(xs: seq<T>, p: T -> bool): (r: Option<T>)
    ensures r.Some? ==> r.value in xs && p(r.value)
    ensures r.None? ==> forall x :: x in xs ==> !p(x)
  {
    if xs == [] then None else if p(xs[0]) then Some(xs[0]) else First(xs[1..], p)
  }

  function RulesOf(rules: seq<StoredRule>, account: string): seq<StoredRule> {
    Filter(rules, (r: StoredRule) => r.account == account)
  }

  predicate Named(r: StoredRule, account: string, id: RuleID) {
    r.account == account && r.id == id
  }

  function GetRule(rules: seq<StoredRule>, account: string, id: RuleID): Option<StoredRule> {
    First(rules, (r: StoredRule) => Named(r, account, id))
  }

  function PutRule(rules: seq<StoredRule>, u: StoredRule): (r: seq<StoredRule>)
    ensures |r| == |rules|
  {
    Map(rules, (r: StoredRule) => if Named(r, u.account, u.id) then u else r)
  }

  function DropRule(rules: seq<StoredRule>, account: string, id: RuleID): seq<StoredRule> {
    Filter(rules, (r: StoredRule) => !Named(r, account, id))
  }

  /** The rule a row goes on using: the one it points to, or else the first that is alike. */
  function Find(rules: seq<StoredRule>, account: string, rule: Option<RuleID>, w: R.Rule): (r: Option<StoredRule>)
  {
    var pointed := if rule.Some? then GetRule(rules, account, rule.value) else None;
    if pointed.Some? then pointed else First(RulesOf(rules, account), (r: StoredRule) => Alike(r.rule, w))
  }

  // ----- the state a request asks for -----

  /** The states a source passes through while its mail is forwarded by hand. */
  const FORWARDING_STATES := {"pending", "in_progress", "confirmed", "needs_help"}

  function NormalizeState(raw: string): string {
    var state := ToLower(TrimSpace(raw));
    if state in FORWARDING_STATES then state else "not_required"
  }

  function Settled(f: Forwarding, mode: Mode): Forwarding {
    if !mode.Assisted? then IDLE
    else
      var state := NormalizeState(f.state);
      f.(state := if state == "not_required" then "pending" else state)
  }

  lemma StatesNormal(state: string)
    requires state in FORWARDING_STATES
    ensures NormalizeState(state) == state
  {
    assert Trimmed(state) && ToLower(state) == state;
    TrimmedIsFixed(state);
    hide TrimSpace, ToLower;
  }

  /** What is settled stays so. */
  lemma SettledTwice(f: Forwarding, mode: Mode)
    ensures Settled(Settled(f, mode), mode) == Settled(f, mode)
  {
    if mode.Assisted? {
      var state := Settled(f, mode).state;
      assert state in FORWARDING_STATES by { hide ToLower, TrimSpace; }
      StatesNormal(state);
      assert "not_required" !in FORWARDING_STATES;
      hide NormalizeState;
    }
  }

  const BLANK := Row(0, "", None, "", IDLE.(state := ""))

  function Existing(rows: map<Key, Row>, k: Key): Row {
    if k in rows then rows[k] else BLANK
  }

  function Targets(collector: string, sources: seq<string>): set<Key> {
    {Key(Collector, collector)} + set s | s in sources :: Key(Source, s)
  }

  function Position(sources: seq<string>, s: string): nat {
    if sources == [] || sources[0] == s then 0 else 1 + Position(sources[1..], s)
  }

  /** A target row before routing: placed, its sender identity set, its rule as it was. */
  function Placed(rows: map<Key, Row>, k: Key, sources: seq<string>, mode: Mode, identity: string -> string): Row {
    var row := Existing(rows, k);
    if k.role.Collector? then row.(position := 0, error := "", forwarding := IDLE, identity := identity(k.account))
    else row.(position := Position(sources, k.account), error := "", forwarding := Settled(row.forwarding, mode),
      identity := identity(k.account))
  }

  function PlacedRows(rows: map<Key, Row>, collector: string, sources: seq<string>, mode: Mode,
      identity: string -> string): map<Key, Row> {
    map k | k in Targets(collector, sources) :: Placed(rows, k, sources, mode, identity)
  }

  /** A rule that goes because the row pointing to it goes. */
  predicate Orphaned(r: StoredRule, rows: map<Key, Row>, targets: set<Key>) {
    var k := Key(Source, r.account);
    k in rows && k !in targets && rows[k].rule == Some(r.id)
  }

  function Pruned(rules: seq<StoredRule>, rows: map<Key, Row>, targets: set<Key>): seq<StoredRule> {
    Filter(rules, (r: StoredRule) => !Orphaned(r, rows, targets))
  }

  /** The accounts that lose a rule because their row goes. */
  function Losers(rows: map<Key, Row>, targets: set<Key>): set<string> {
    set k | k in rows && k !in targets && k.role.Source? && rows[k].rule.Some? :: k.account
  }

  /** A state of the tables, and the accounts whose rules were changed on the way: those whose
      scripts are written again, each once. */
  datatype Step = Step(db: Db, affected: set<string>)

  function Noted(affected: set<string>, account: string, changed: bool): set<string> {
    if changed then affected + {account} else affected
  }

  /** The rules once the rule found, if any, is sound. */
  function WithRule(rules: seq<StoredRule>, next: RuleID, account: string, found: Option<StoredRule>,
      w: R.Rule): seq<StoredRule> {
    if found.None? then rules + [StoredRule(next, account, Written(w))]
    else if Sound(found.value.rule, w) then rules
    else PutRule(rules, StoredRule(found.value.id, account, Written(w)))
  }

  function RouteManaged(st: Step, account: string, w: R.Rule): Step
    requires Key(Source, account) in st.db.rows
  {
    var db := st.db;
    var k := Key(Source, account);
    var found := Find(db.rules, account, db.rows[k].rule, w);
    var id := if found.Some? then found.value.id else db.next;
    Step(Db(db.rows[k := db.rows[k].(rule := Some(id), error := "")], WithRule(db.rules, db.next, account, found, w),
      if found.None? then db.next + 1 else db.next),
         Noted(st.affected, account, found.None? || !Sound(found.value.rule, w)))
  }

  function RouteOther(st: Step, account: string, mode: Mode): Step
    requires Key(Source, account) in st.db.rows
  {
    var db := st.db;
    var k := Key(Source, account);
    var row := db.rows[k];
    var rules := if row.rule.None? then db.rules else DropRule(db.rules, account, row.rule.value);
    Step(Db(db.rows[k := row.(rule := None, error := "", forwarding := Settled(row.forwarding, mode))], rules, db.next),
         Noted(st.affected, account, row.rule.Some?))
  }

  /** Everything about a request but its sources. */
  datatype Plan = Plan(name: string, collectorLogin: string, mode: Mode, logins: map<string, string>)

  function WantedFor(p: Plan, account: string): R.Rule {
    Wanted(p.name, if account in p.logins then p.logins[account] else "", p.collectorLogin)
  }

  function RouteOne(st: Step, account: string, p: Plan): (r: Step)
    requires Key(Source, account) in st.db.rows
    ensures r.db.rows.Keys == st.db.rows.Keys
  {
    if p.mode.Managed? then RouteManaged(st, account, WantedFor(p, account)) else RouteOther(st, account, p.mode)
  }

  predicate HasSources(rows: map<Key, Row>, sources: seq<string>) {
    forall s :: s in sources ==> Key(Source, s) in rows
  }

  function Route(st: Step, sources: seq<string>, p: Plan): (r: Step)
    requires HasSources(st.db.rows, sources)
    ensures r.db.rows.Keys == st.db.rows.Keys
  {
    if sources == [] then st
    else
      var before := Route(st, sources[..|sources| - 1], p);
      RouteOne(before, sources[|sources| - 1], p)
  }

  function PlanOf(q: Request, accounts: map<string, Account>): Plan {
    var c := TrimSpace(q.collector);
    var login := if c in accounts then accounts[c].login else "";
    Plan(TrimSpace(q.name), login, q.mode, map a | a in accounts :: accounts[a].login)
  }

  /** What an accepted request makes of the tables. */
  function Upsert(db: Db, q: Request, accounts: map<string, Account>, identity: string -> string): Step {
    var c, sources := TrimSpace(q.collector), Sources(q);
    var targets := Targets(c, sources);
    var placed := PlacedRows(db.rows, c, sources, q.mode, identity);
    Route(Step(Db(placed, Pruned(db.rules, db.rows, targets), db.next), Losers(db.rows, targets)), sources,
      PlanOf(q, accounts))
  }

  // ----- convergence -----

  /** Rule ids identify; collector rows carry no rule. */
  predicate Valid(db: Db) {
    && (forall i :: 0 <= i < |db.rules| ==> db.rules[i].id < db.next)
    && (forall i, j :: 0 <= i < j < |db.rules| ==> db.rules[i].id != db.rules[j].id)
    && (forall k :: k in db.rows && k.role.Collector? ==> db.rows[k].rule.None?)
  }

  predicate Holds(rules: seq<StoredRule>, account: string, id: RuleID, w: R.Rule) {
    exists r :: r in rules && Named(r, account, id) && Sound(r.rule, w)
  }

  /** The row of a source is as the mode asks. */
  predicate Routed(db: Db, account: string, p: Plan) {
    var k := Key(Source, account);
    k in db.rows &&
    if p.mode.Managed? then db.rows[k].rule.Some?
      && Holds(db.rules, account, db.rows[k].rule.value, WantedFor(p, account))
    else db.rows[k].rule.None?
  }

  lemma WantedIsSound(name: string, login: string, collectorLogin: string)
    ensures var w := Wanted(name, login, collectorLogin); Written(w) == w && Sound(w, w)
  {
    var w := Wanted(name, login, collectorLogin);
    RuleNameTrimmed(name);
    TrimSpaceIdempotent(login);
    TrimSpaceIdempotent(collectorLogin);
    assert TrimSpace("all") == "all" by { TrimmedIsFixed("all"); }
    assert TrimSpace("") == "" by { TrimmedIsFixed(""); }
    hide TrimSpace;
    assert ToLower("all")[1] != ToLower("any")[1];
  }

  lemma RuleNameTrimmed(name: string)
    ensures TrimSpace(RuleName(name)) == RuleName(name)
  {
    var t := if TrimSpace(name) == "" then "Collector" else TrimSpace(name);
    var _, _ := TrimSpaceSplits(name);
    hide TrimSpace;
    assert Trimmed(t);
    TrimmedIsFixed(RuleName(name));
  }
}
