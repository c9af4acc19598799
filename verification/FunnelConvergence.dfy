/** Where an upsert of a reply funnel ends, and that it stays there. */
module FunnelConvergence {
  import opened Text
  import opened Lists
  import opened ReplyFunnels
  import R = MailRules
  import S = Sieve
  import M = Mailboxes

  // ----- the rule table -----

  lemma PutMembers(rules: seq<StoredRule>, u: StoredRule)
    ensures forall r :: r in rules && !Named(r, u.account, u.id) ==> r in PutRule(rules, u)
    ensures forall r :: r in PutRule(rules, u) ==> r == u || (r in rules && !Named(r, u.account, u.id))
    ensures (exists r :: r in rules && Named(r, u.account, u.id)) ==> u in PutRule(rules, u)
    ensures forall i :: 0 <= i < |rules| ==> PutRule(rules, u)[i].id == rules[i].id
  {
    var out := PutRule(rules, u);
    forall r | r in rules
      ensures !Named(r, u.account, u.id) ==> r in out
      ensures Named(r, u.account, u.id) ==> u in out
    {
      var i :| 0 <= i < |rules| && rules[i] == r;
      assert out[i] == if Named(r, u.account, u.id) then u else r;
    }
  }

  lemma DropMembers(rules: seq<StoredRule>, account: string, id: RuleID)
    ensures forall r :: r in DropRule(rules, account, id) <==> r in rules && !Named(r, account, id)
  {
    FilterMembers(rules, (r: StoredRule) => !Named(r, account, id));
  }

  predicate IDsBelow(rules: seq<StoredRule>, next: RuleID) {
    forall i :: 0 <= i < |rules| ==> rules[i].id < next
  }

  predicate DistinctIDs(rules: seq<StoredRule>) {
    forall i, j :: 0 <= i < j < |rules| ==> rules[i].id != rules[j].id
  }

  lemma {:induction false} FilterKeepsIDs(rules: seq<StoredRule>, p: StoredRule -> bool, next: RuleID)
    requires DistinctIDs(rules) && IDsBelow(rules, next)
    ensures DistinctIDs(Filter(rules, p)) && IDsBelow(Filter(rules, p), next)
  {
    if rules != [] {
      FilterKeepsIDs(rules[1..], p, next);
      FilterMembers(rules[1..], p);
      var tail := Filter(rules[1..], p);
      forall i | 0 <= i < |tail| ensures tail[i].id != rules[0].id {
        assert tail[i] in rules[1..];
      }
    }
  }

  lemma SameRule(rules: seq<StoredRule>, r: StoredRule, s: StoredRule)
    requires DistinctIDs(rules) && r in rules && s in rules && r.id == s.id
    ensures r == s
  {
    var i :| 0 <= i < |rules| && rules[i] == r;
    var j :| 0 <= j < |rules| && rules[j] == s;
  }

  // ----- one source -----

  predicate RulesValid(db: Db) {
    DistinctIDs(db.rules) && IDsBelow(db.rules, db.next)
  }

  predicate Survives(rules: seq<StoredRule>, r: StoredRule) {
    exists s :: s in rules && Named(s, r.account, r.id)
  }

  /** A change to the tables that touches only one source: its row, and rules of its account. */
  ghost predicate Local(before: Db, after: Db, account: string) {
    && before.rows.Keys == after.rows.Keys
    && (forall k :: k in before.rows && k != Key(Source, account) ==> after.rows[k] == before.rows[k])
    && (forall r: StoredRule :: r.account != account ==> (r in after.rules <==> r in before.rules))
  }

  lemma FoundIsOwn(rules: seq<StoredRule>, account: string, rule: Option<RuleID>, w: R.Rule)
    ensures var f := Find(rules, account, rule, w); f.Some? ==> f.value in rules && f.value.account == account
  {
    FilterMembers(rules, (r: StoredRule) => r.account == account);
  }

  /** The rules of one account change so that `id` names a sound one, and no id is lost. */
  ghost predicate Ensured(rules: seq<StoredRule>, after: seq<StoredRule>, next: RuleID, account: string, id: RuleID,
      w: R.Rule) {
    && DistinctIDs(after) && IDsBelow(after, next)
    && (forall r: StoredRule :: r.account != account ==> (r in after <==> r in rules))
    && Holds(after, account, id, w)
    && (forall r :: r in rules ==> Survives(after, r))
  }

  lemma EnsuredByCreating(rules: seq<StoredRule>, next: RuleID, account: string, w: R.Rule)
    requires DistinctIDs(rules) && IDsBelow(rules, next) && Sound(w, w)
    ensures Ensured(rules, rules + [StoredRule(next, account, w)], next + 1, account, next, w)
  {
    var made := StoredRule(next, account, w);
    var after := rules + [made];
    hide Sound;
    assert after[|rules|] == made;
    assert forall r :: r in rules ==> r in after && Named(r, r.account, r.id);
  }

  lemma EnsuredByUpdating(rules: seq<StoredRule>, next: RuleID, found: StoredRule, w: R.Rule)
    requires DistinctIDs(rules) && IDsBelow(rules, next) && Sound(w, w) && found in rules
    ensures Ensured(rules, PutRule(rules, StoredRule(found.id, found.account, w)), next, found.account, found.id, w)
  {
    var u := StoredRule(found.id, found.account, w);
    PutMembers(rules, u);
    PutKeepsIDs(rules, u);
    hide PutRule, Sound, Survives;
    assert Named(found, u.account, u.id);
  }

  lemma EnsuredAlready(rules: seq<StoredRule>, next: RuleID, found: StoredRule, w: R.Rule)
    requires DistinctIDs(rules) && IDsBelow(rules, next) && found in rules && Sound(found.rule, w)
    ensures Ensured(rules, rules, next, found.account, found.id, w)
  {
    hide Sound;
    assert forall r :: r in rules ==> Named(r, r.account, r.id);
  }

  lemma WithRuleEnsures(rules: seq<StoredRule>, next: RuleID, account: string, found: Option<StoredRule>, w: R.Rule)
    requires DistinctIDs(rules) && IDsBelow(rules, next) && Written(w) == w && Sound(w, w)
    requires found.Some? ==> found.value in rules && found.value.account == account
    ensures Ensured(rules, WithRule(rules, next, account, found, w), if found.None? then next + 1 else next,
                    account, if found.Some? then found.value.id else next, w)
  {
    hide Sound, Written, PutRule, Ensured, DistinctIDs, IDsBelow;
    if found.None? {
      EnsuredByCreating(rules, next, account, w);
    } else if Sound(found.value.rule, w) {
      EnsuredAlready(rules, next, found.value, w);
    } else {
      EnsuredByUpdating(rules, next, found.value, w);
    }
  }

  lemma ManagedEnsures(st: Step, account: string, w: R.Rule)
    requires Key(Source, account) in st.db.rows && RulesValid(st.db) && Written(w) == w && Sound(w, w)
    ensures var db := RouteManaged(st, account, w).db;
      && db.rows[Key(Source, account)].rule.Some?
      && Ensured(st.db.rules, db.rules, db.next, account, db.rows[Key(Source, account)].rule.value, w)
  {
    var db := st.db;
    var rule := db.rows[Key(Source, account)].rule;
    hide Sound, Find, Written, WithRule, Ensured, DistinctIDs, IDsBelow;
    FoundIsOwn(db.rules, account, rule, w);
    WithRuleEnsures(db.rules, db.next, account, Find(db.rules, account, rule, w), w);
  }

  lemma ManagedStep(st: Step, account: string, name: string, login: string, collectorLogin: string)
    requires Key(Source, account) in st.db.rows && RulesValid(st.db)
    ensures var w := Wanted(name, login, collectorLogin); var db := RouteManaged(st, account, w).db;
      && RulesValid(db) && Local(st.db, db, account)
      && db.rows[Key(Source, account)].rule.Some?
      && Holds(db.rules, account, db.rows[Key(Source, account)].rule.value, w)
      && (forall r :: r in st.db.rules ==> Survives(db.rules, r))
  {
    var w := Wanted(name, login, collectorLogin);
    WantedIsSound(name, login, collectorLogin);
    hide Wanted, Sound, Find, Written, PutRule, Holds, Survives, DistinctIDs, IDsBelow;
    ManagedEnsures(st, account, w);
  }

  lemma PutKeepsIDs(rules: seq<StoredRule>, u: StoredRule)
    ensures forall r :: r in rules ==> Survives(PutRule(rules, u), r)
  {
    var out := PutRule(rules, u);
    forall r | r in rules ensures Survives(out, r) {
      var i :| 0 <= i < |rules| && rules[i] == r;
      assert out[i] in out && Named(out[i], r.account, r.id);
    }
  }

  lemma OtherStep(st: Step, account: string, mode: Mode)
    requires Key(Source, account) in st.db.rows && RulesValid(st.db)
    ensures var k := Key(Source, account); var db := RouteOther(st, account, mode).db;
      && RulesValid(db) && Local(st.db, db, account)
      && db.rows[k].rule.None?
      && (forall r :: r in st.db.rules ==> r in db.rules || (r.account == account && st.db.rows[k].rule == Some(r.id)))
  {
    var row := st.db.rows[Key(Source, account)];
    if row.rule.Some? {
      DropMembers(st.db.rules, account, row.rule.value);
      FilterKeepsIDs(st.db.rules, (r: StoredRule) => !Named(r, account, row.rule.value), st.db.next);
    }
  }

  lemma OneStep(st: Step, account: string, p: Plan)
    requires Key(Source, account) in st.db.rows && RulesValid(st.db)
    ensures var db := RouteOne(st, account, p).db;
      && RulesValid(db) && Local(st.db, db, account) && Routed(db, account, p)
  {
    hide RouteManaged, RouteOther, RulesValid, Local, Holds;
    if p.mode.Managed? {
      ManagedStep(st, account, p.name, if account in p.logins then p.logins[account] else "", p.collectorLogin);
    } else {
      OtherStep(st, account, p.mode);
    }
  }

  lemma LocalKeepsRouted(before: Db, after: Db, account: string, other: string, p: Plan)
    requires Local(before, after, account) && other != account && Routed(before, other, p)
    ensures Routed(after, other, p)
  {
    hide Sound, WantedFor;
  }

  // ----- all sources -----

  /** After routing every source is as the mode asks, and nothing else has changed. */
  lemma {:induction false} RouteConverges(st: Step, sources: seq<string>, p: Plan)
    requires HasSources(st.db.rows, sources) && RulesValid(st.db)
    ensures var db := Route(st, sources, p).db;
      && RulesValid(db)
      && (forall s :: s in sources ==> Routed(db, s, p))
      && (forall k :: k in st.db.rows && !(k.role.Source? && k.account in sources) ==> db.rows[k] == st.db.rows[k])
      && (forall r: StoredRule :: r.account !in sources ==> (r in db.rules <==> r in st.db.rules))
  {
    if sources != [] {
      var n := |sources| - 1;
      var init, a := sources[..n], sources[n];
      assert sources == init + [a];
      RouteConverges(st, init, p);
      var before := Route(st, init, p);
      OneStep(before, a, p);
      hide RouteOne, Routed, RulesValid;
      var after := RouteOne(before, a, p);
      forall s | s in sources ensures Routed(after.db, s, p) {
        if s != a {
          LocalKeepsRouted(before.db, after.db, a, s, p);
        }
      }
    }
  }

  // ----- rows in their place -----

  /** Nothing about a row is left to set but its rule. */
  predicate InPlace(rows: map<Key, Row>, k: Key, sources: seq<string>, mode: Mode, identity: string -> string) {
    k in rows && Placed(rows, k, sources, mode, identity) == rows[k]
  }

  lemma PlacedIsInPlace(rows: map<Key, Row>, collector: string, sources: seq<string>, mode: Mode,
      identity: string -> string)
    ensures forall k :: k in Targets(collector, sources) ==>
      InPlace(PlacedRows(rows, collector, sources, mode, identity), k, sources, mode, identity)
  {
    hide Position, Targets, Settled;
    var placed := PlacedRows(rows, collector, sources, mode, identity);
    forall k | k in Targets(collector, sources) ensures InPlace(placed, k, sources, mode, identity) {
      SettledTwice(Existing(rows, k).forwarding, mode);
    }
  }

  lemma OneKeepsPlace(st: Step, account: string, p: Plan, k: Key, sources: seq<string>, identity: string -> string)
    requires Key(Source, account) in st.db.rows && InPlace(st.db.rows, k, sources, p.mode, identity)
    ensures InPlace(RouteOne(st, account, p).db.rows, k, sources, p.mode, identity)
  {
    hide Find, Sound, PutRule, DropRule, Written, WantedFor, Position, Settled;
    SettledTwice(st.db.rows[Key(Source, account)].forwarding, p.mode);
  }

  lemma {:induction false} RouteKeepsPlace(st: Step, todo: seq<string>, p: Plan, k: Key, sources: seq<string>,
      identity: string -> string)
    requires HasSources(st.db.rows, todo) && InPlace(st.db.rows, k, sources, p.mode, identity)
    ensures InPlace(Route(st, todo, p).db.rows, k, sources, p.mode, identity)
  {
    if todo != [] {
      var n := |todo| - 1;
      RouteKeepsPlace(st, todo[..n], p, k, sources, identity);
      hide InPlace, RouteOne;
      OneKeepsPlace(Route(st, todo[..n], p), todo[n], p, k, sources, identity);
    }
  }

  lemma PrunedIsValid(db: Db, targets: set<Key>)
    requires Valid(db)
    ensures DistinctIDs(Pruned(db.rules, db.rows, targets)) && IDsBelow(Pruned(db.rules, db.rows, targets), db.next)
    ensures forall r :: r in Pruned(db.rules, db.rows, targets) <==> r in db.rules && !Orphaned(r, db.rows, targets)
  {
    var keep := (r: StoredRule) => !Orphaned(r, db.rows, targets);
    FilterKeepsIDs(db.rules, keep, db.next);
    FilterMembers(db.rules, keep);
  }

  /** The state a request asks for. */
  predicate Converged(db: Db, q: Request, accounts: map<string, Account>, identity: string -> string) {
    var sources := Sources(q);
    && Valid(db)
    && db.rows.Keys == Targets(TrimSpace(q.collector), sources)
    && (forall k :: k in db.rows ==> InPlace(db.rows, k, sources, q.mode, identity))
    && (forall s :: s in sources ==> Routed(db, s, PlanOf(q, accounts)))
  }

  /** An upsert leaves exactly one collector row and one row for each distinct source, each
      source pointing to a sound redirect rule in managed mode and to none otherwise. */
  lemma UpsertConverges(db: Db, q: Request, accounts: map<string, Account>, identity: string -> string)
    requires Valid(db)
    ensures Converged(Upsert(db, q, accounts, identity).db, q, accounts, identity)
  {
    var c, sources := TrimSpace(q.collector), Sources(q);
    var targets := Targets(c, sources);
    var placed := PlacedRows(db.rows, c, sources, q.mode, identity);
    var st := Step(Db(placed, Pruned(db.rules, db.rows, targets), db.next), Losers(db.rows, targets));
    var p := PlanOf(q, accounts);
    hide Route, Pruned, Losers, InPlace, Routed, PlanOf, Sources, TrimSpace, Position, DistinctIDs, IDsBelow, Valid;
    PlanMode(q, accounts);
    PrunedIsValid(db, targets);
    PlacedIsInPlace(db.rows, c, sources, q.mode, identity);
    PlacedPlain(db, c, sources, q.mode, identity);
    RouteConverges(st, sources, p);
    forall k | k in placed ensures InPlace(Route(st, sources, p).db.rows, k, sources, q.mode, identity) {
      RouteKeepsPlace(st, sources, p, k, sources, identity);
    }
    var after := Route(st, sources, p).db;
    ValidParts(after);
  }

  lemma PlacedPlain(db: Db, collector: string, sources: seq<string>, mode: Mode, identity: string -> string)
    requires Valid(db)
    ensures var placed := PlacedRows(db.rows, collector, sources, mode, identity);
      && placed.Keys == Targets(collector, sources) && HasSources(placed, sources)
      && forall k :: k in placed && k.role.Collector? ==> placed[k].rule.None?
  {
    hide Position;
  }

  lemma ValidParts(db: Db)
    requires DistinctIDs(db.rules) && IDsBelow(db.rules, db.next)
    requires forall k :: k in db.rows && k.role.Collector? ==> db.rows[k].rule.None?
    ensures Valid(db)
  {
  }

  // ----- repeating a request -----

  lemma OneFixed(st: Step, account: string, p: Plan, sources: seq<string>, identity: string -> string)
    requires DistinctIDs(st.db.rules) && Routed(st.db, account, p)
    requires InPlace(st.db.rows, Key(Source, account), sources, p.mode, identity)
    ensures RouteOne(st, account, p) == st
  {
    var db := st.db;
    var k := Key(Source, account);
    hide Sound, WantedFor, Position, PutRule, DropRule;
    if p.mode.Managed? {
      var w, id := WantedFor(p, account), db.rows[k].rule.value;
      var r :| r in db.rules && Named(r, account, id) && Sound(r.rule, w);
      var found := GetRule(db.rules, account, id);
      assert found.Some?;
      SameRule(db.rules, r, found.value);
    }
  }

  lemma {:induction false} RouteFixed(st: Step, todo: seq<string>, p: Plan, sources: seq<string>,
      identity: string -> string)
    requires DistinctIDs(st.db.rules) && HasSources(st.db.rows, todo)
    requires forall s :: s in todo ==>
      Routed(st.db, s, p) && InPlace(st.db.rows, Key(Source, s), sources, p.mode, identity)
    ensures Route(st, todo, p) == st
  {
    if todo != [] {
      var n := |todo| - 1;
      hide Routed, InPlace, RouteOne;
      RouteFixed(st, todo[..n], p, sources, identity);
      OneFixed(st, todo[n], p, sources, identity);
    }
  }

  lemma {:induction false} FilterAll<T>(xs: seq<T>, p: T -> bool)
    requires forall i :: 0 <= i < |xs| ==> p(xs[i])
    ensures Filter(xs, p) == xs
  {
    if xs != [] {
      FilterAll(xs[1..], p);
    }
  }

  /** In the state a request asks for, the request changes nothing: no row, no rule, no script. */
  lemma RepeatChangesNothing(db: Db, q: Request, accounts: map<string, Account>, identity: string -> string)
    requires Converged(db, q, accounts, identity)
    ensures Upsert(db, q, accounts, identity) == Step(db, {})
  {
    var c, sources := TrimSpace(q.collector), Sources(q);
    var targets := Targets(c, sources);
    var placed := PlacedRows(db.rows, c, sources, q.mode, identity);
    var p := PlanOf(q, accounts);
    hide Sources, TrimSpace, Routed, PlanOf, Position, Route;
    assert placed == db.rows;
    FilterAll(db.rules, (r: StoredRule) => !Orphaned(r, db.rows, targets));
    assert Pruned(db.rules, db.rows, targets) == db.rules;
    assert Losers(db.rows, targets) == {};
    assert PlanOf(q, accounts).mode == q.mode by { PlanMode(q, accounts); }
    RouteFixed(Step(db, {}), sources, p, sources, identity);
  }

  lemma PlanMode(q: Request, accounts: map<string, Account>)
    ensures PlanOf(q, accounts).mode == q.mode
  {
  }

  // ----- what an upsert leaves alone -----

  /** The row of a source points to the rule, and the mode has no use for it. */
  predicate Spent(rows: map<Key, Row>, r: StoredRule, sources: seq<string>, mode: Mode) {
    var k := Key(Source, r.account);
    !mode.Managed? && r.account in sources && k in rows && rows[k].rule == Some(r.id)
  }

  predicate Spares(rules: seq<StoredRule>, after: seq<StoredRule>, rows: map<Key, Row>, sources: seq<string>,
      mode: Mode) {
    forall r :: r in rules && !Survives(after, r) ==> Spent(rows, r, sources, mode)
  }

  lemma SparesChain(rules: seq<StoredRule>, mid: seq<StoredRule>, after: seq<StoredRule>, rows: map<Key, Row>,
      sources: seq<string>, a: string, mode: Mode)
    requires Spares(rules, mid, rows, sources, mode) && Spares(mid, after, rows, [a], mode)
    ensures Spares(rules, after, rows, sources + [a], mode)
  {
    forall r | r in rules && !Survives(after, r) ensures Spent(rows, r, sources + [a], mode) {
      hide Survives;
      if Survives(mid, r) {
        var s := Survivor(mid, r);
        SurvivesAlike(after, r, s);
        assert Spent(rows, s, [a], mode);
      } else {
        assert Spent(rows, r, sources, mode);
      }
    }
  }

  lemma RouteLeaves(st: Step, sources: seq<string>, a: string, p: Plan)
    requires HasSources(st.db.rows, sources) && RulesValid(st.db) && a !in sources && Key(Source, a) in st.db.rows
    ensures var db := Route(st, sources, p).db; RulesValid(db) && db.rows[Key(Source, a)] == st.db.rows[Key(Source, a)]
  {
    RouteConverges(st, sources, p);
  }

  lemma NothingSpared(rules: seq<StoredRule>, rows: map<Key, Row>, mode: Mode)
    ensures Spares(rules, rules, rows, [], mode)
  {
    assert forall r :: r in rules ==> Named(r, r.account, r.id);
  }

  /** Routing only ever deletes a rule that the row of its source points to. */
  lemma {:induction false} RouteDeletes(st: Step, sources: seq<string>, p: Plan)
    requires HasSources(st.db.rows, sources) && RulesValid(st.db) && Distinct(sources)
    ensures Spares(st.db.rules, Route(st, sources, p).db.rules, st.db.rows, sources, p.mode)
  {
    hide RouteOne, Spares, RulesValid;
    if sources == [] {
      NothingSpared(st.db.rules, st.db.rows, p.mode);
    } else {
      var n := |sources| - 1;
      var init, a := sources[..n], sources[n];
      RouteDeletes(st, init, p);
      var before := Route(st, init, p);
      RouteLeaves(st, init, a, p);
      OneDeletes(before, a, p);
      assert sources == init + [a];
      var after := RouteOne(before, a, p);
      SameRowSpares(before.db.rules, after.db.rules, before.db.rows, st.db.rows, a, p.mode);
      SparesChain(st.db.rules, before.db.rules, after.db.rules, st.db.rows, init, a, p.mode);
    }
  }

  lemma SameRowSpares(rules: seq<StoredRule>, after: seq<StoredRule>, rows: map<Key, Row>, earlier: map<Key, Row>,
      a: string, mode: Mode)
    requires Spares(rules, after, rows, [a], mode)
    requires Key(Source, a) in rows && Key(Source, a) in earlier && rows[Key(Source, a)] == earlier[Key(Source, a)]
    ensures Spares(rules, after, earlier, [a], mode)
  {
    hide Survives;
    forall r | r in rules && !Survives(after, r) ensures Spent(earlier, r, [a], mode) {
      assert Spent(rows, r, [a], mode);
    }
  }

  lemma Survivor(rules: seq<StoredRule>, r: StoredRule) returns (s: StoredRule)
    requires Survives(rules, r)
    ensures s in rules && s.account == r.account && s.id == r.id
  {
    s :| s in rules && Named(s, r.account, r.id);
  }

  lemma SurvivesAlike(rules: seq<StoredRule>, r: StoredRule, s: StoredRule)
    requires s.account == r.account && s.id == r.id
    ensures Survives(rules, r) <==> Survives(rules, s)
  {
  }

  lemma OneDeletes(st: Step, account: string, p: Plan)
    requires Key(Source, account) in st.db.rows && RulesValid(st.db)
    ensures Spares(st.db.rules, RouteOne(st, account, p).db.rules, st.db.rows, [account], p.mode)
  {
    hide RouteManaged, RouteOther, RulesValid, Local, Holds;
    if p.mode.Managed? {
      ManagedStep(st, account, p.name, if account in p.logins then p.logins[account] else "", p.collectorLogin);
    } else {
      OtherStep(st, account, p.mode);
      assert forall r :: r in st.db.rules ==> Named(r, r.account, r.id);
    }
  }

  /** An upsert deletes no rule but those the funnel's own rows pointed to, keeps them all in
      managed mode where the source stays, and does not touch the rules of accounts that are
      neither sources now nor were before. */
  lemma UpsertSparesRules(db: Db, q: Request, accounts: map<string, Account>, identity: string -> string)
    requires Valid(db)
    ensures var after := Upsert(db, q, accounts, identity).db;
      && (forall r :: r in db.rules && !Survives(after.rules, r) ==>
        && Key(Source, r.account) in db.rows && db.rows[Key(Source, r.account)].rule == Some(r.id)
        && (q.mode.Managed? ==> r.account !in Sources(q)))
      && (forall r: StoredRule :: r.account !in Sources(q) && Key(Source, r.account) !in db.rows ==>
        (r in after.rules <==> r in db.rules))
  {
    var c, sources := TrimSpace(q.collector), Sources(q);
    var targets := Targets(c, sources);
    var placed := PlacedRows(db.rows, c, sources, q.mode, identity);
    var pruned := Pruned(db.rules, db.rows, targets);
    var st := Step(Db(placed, pruned, db.next), Losers(db.rows, targets));
    var p := PlanOf(q, accounts);
    PrunedIsValid(db, targets);
    RouteConverges(st, sources, p);
    SourcesExact(q.sources, c, {});
    RouteDeletes(st, sources, p);
    hide Route, Pruned, Losers, PlanOf, Sources, TrimSpace, Position, SourcesFrom;
    PlanMode(q, accounts);
    var after := Route(st, sources, p).db;
    forall r | r in db.rules && !Survives(after.rules, r)
      ensures Key(Source, r.account) in db.rows && db.rows[Key(Source, r.account)].rule == Some(r.id)
      ensures q.mode.Managed? ==> r.account !in sources
    {
      if r in pruned {
        assert Spent(placed, r, sources, p.mode);
        assert placed[Key(Source, r.account)].rule == Existing(db.rows, Key(Source, r.account)).rule;
      }
    }
  }

  // ----- what a sound rule does -----

  /** The rule has no condition but the one on recipients. */
  predicate OnlyTo(r: R.Rule) {
    var c := R.TrimConditions(r.conditions);
    c.fromContains == "" && c.fromDomainIs == "" && c.subjectContains == "" && c.bodyContains == ""
  }

  /** A message to one address, with nothing else in it. */
  function Bare(login: string): S.Message {
    S.Message([], [S.AddressField("to", login, "")], "", 0)
  }

  lemma {:induction false} ContainsPrefix(s: string, p: string)
    requires p <= s
    ensures Text.Contains(s, p)
  {
  }

  lemma BareReaches(login: string)
    ensures R.RecipientHas(Bare(login), login)
  {
    var a := S.AddressField("to", login, "");
    assert a in Bare(login).addresses;
    LowerConcat(login, "@");
    assert ToLower(login) <= ToLower(login + "@" + "") by { assert login + "@" + "" == login + "@"; }
    ContainsPrefix(ToLower(login + "@" + ""), ToLower(login));
    assert EqualFold("to", "to");
  }

  /** A sound rule redirects to the collector and ends the run. It fires on exactly the mail
      addressed to the source if and only if it carries no further condition: the check for
      changed rules does not look at the others, so one that was added stays. */
  lemma SoundRuleCovers(r: R.Rule, name: string, login: string, collectorLogin: string, mailboxes: seq<M.Mailbox>)
    requires Sound(r, Wanted(name, login, collectorLogin)) && TrimSpace(login) != "" && TrimSpace(collectorLogin) != ""
    ensures r.actions.stop && R.Effects(r, mailboxes) == [S.RedirectedTo(TrimSpace(collectorLogin))]
    ensures (forall m :: R.Fires(r, m) <==> R.RecipientHas(m, TrimSpace(login))) <==> OnlyTo(r)
  {
    SoundEffects(r, name, login, collectorLogin, mailboxes);
    assert !R.MatchesAny(r) by { assert ToLower("all")[1] != ToLower("any")[1]; }
    var key := TrimSpace(login);
    assert R.TrimConditions(r.conditions).toContains == key;
    if OnlyTo(r) {
      hide R.RecipientHas, R.TrimConditions, R.MatchesAny, TrimSpace;
      assert forall m :: R.Fires(r, m) <==> R.RecipientHas(m, key);
    } else {
      BareReaches(key);
      BareSilent(r, key);
    }
  }

  lemma BareSilent(r: R.Rule, login: string)
    requires !OnlyTo(r) && !R.MatchesAny(r)
    ensures !R.Fires(r, Bare(login))
  {
    var m := Bare(login);
    var c := R.TrimConditions(r.conditions);
    hide R.TrimConditions;
    assert c.bodyContains != "" ==> !R.BodyHas(m, c.bodyContains);
    assert m.addresses == [S.AddressField("to", login, "")];
    assert !EqualFold("to", "from") by { assert |ToLower("to")| != |ToLower("from")|; }
    assert !R.SenderDomainIs(m, c.fromDomainIs);
    assert !R.HeaderHas(m, "from", c.fromContains) && !R.HeaderHas(m, "subject", c.subjectContains);
  }

  lemma SoundEffects(r: R.Rule, name: string, login: string, collectorLogin: string, mailboxes: seq<M.Mailbox>)
    requires Sound(r, Wanted(name, login, collectorLogin)) && TrimSpace(collectorLogin) != ""
    ensures R.Effects(r, mailboxes) == [S.RedirectedTo(TrimSpace(collectorLogin))]
  {
    hide TrimSpace;
    assert M.NormalizeAggregateRole("", "") == "" by { NoRole(); }
  }

  lemma NoRole()
    ensures M.NormalizeAggregateRole("", "") == ""
  {
    assert TrimSpace("") == "";
  }
}
