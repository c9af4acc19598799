/** Which scripts an upsert has to write again: every account whose rules changed is reported as affected. */
module FunnelSync {
  import opened Text
  import opened Lists
  import opened ReplyFunnels
  import opened FunnelConvergence
  import opened FunnelStore
  import R = MailRules

  /** A deleted rule leaves no row pointing to it, and nothing else changes. */
  lemma UnlinkedExactly(rows: map<Key, Row>, id: RuleID, k: Key)
    requires k in rows
    ensures var after := Unlink(rows, id);
      && after.Keys == rows.Keys && after[k].rule != Some(id)
      && after[k] == rows[k].(rule := after[k].rule)
      && (rows[k].rule != Some(id) ==> after[k] == rows[k])
  {
  }

  lemma ManagedNotes(st: Step, account: string, w: R.Rule, a: string)
    requires Key(Source, account) in st.db.rows
    ensures var t := RouteManaged(st, account, w);
      && (RulesOf(t.db.rules, a) != RulesOf(st.db.rules, a) ==> a in t.affected)
      && st.affected <= t.affected <= st.affected + {account}
  {
    var found := Find(st.db.rules, account, st.db.rows[Key(Source, account)].rule, w);
    RulesOfSnoc(st.db.rules, StoredRule(st.db.next, account, Written(w)), a);
    if found.Some? && a != account {
      PutElsewhere(st.db.rules, StoredRule(found.value.id, account, Written(w)), a);
    }
    hide Find, Sound, Written, RulesOf, PutRule;
  }

  lemma OtherNotes(st: Step, account: string, mode: Mode, a: string)
    requires Key(Source, account) in st.db.rows
    ensures var t := RouteOther(st, account, mode);
      && (RulesOf(t.db.rules, a) != RulesOf(st.db.rules, a) ==> a in t.affected)
      && st.affected <= t.affected <= st.affected + {account}
  {
    var row := st.db.rows[Key(Source, account)];
    if row.rule.Some? && a != account {
      DropElsewhere(st.db.rules, account, row.rule.value, a);
    }
    hide RulesOf, DropRule, Settled;
  }

  lemma {:induction false} RouteNotes(st: Step, sources: seq<string>, p: Plan, a: string)
    requires HasSources(st.db.rows, sources)
    ensures var t := Route(st, sources, p);
      && (RulesOf(t.db.rules, a) != RulesOf(st.db.rules, a) ==> a in t.affected)
      && st.affected <= t.affected && (a in t.affected ==> a in st.affected || a in sources)
  {
    if sources != [] {
      var n := |sources| - 1;
      var init, account := sources[..n], sources[n];
      assert sources == init + [account];
      RouteNotes(st, init, p, a);
      var before := Route(st, init, p);
      ManagedNotes(before, account, WantedFor(p, account), a);
      OtherNotes(before, account, p.mode, a);
      hide RouteManaged, RouteOther, RulesOf, WantedFor;
    }
  }

  lemma OrphanLoses(r: StoredRule, rows: map<Key, Row>, targets: set<Key>)
    ensures Orphaned(r, rows, targets) ==> r.account in Losers(rows, targets)
  {
    assert Key(Source, r.account).account == r.account;
  }

  lemma PrunedNotes(rules: seq<StoredRule>, rows: map<Key, Row>, targets: set<Key>, a: string)
    ensures RulesOf(Pruned(rules, rows, targets), a) != RulesOf(rules, a) ==> a in Losers(rows, targets)
  {
    if a !in Losers(rows, targets) {
      var keep, own := (r: StoredRule) => !Orphaned(r, rows, targets), (r: StoredRule) => r.account == a;
      var both := (r: StoredRule) => !Orphaned(r, rows, targets) && r.account == a;
      FilterTwice(rules, keep, own, both);
      forall r | r in rules ensures both(r) <==> own(r) {
        OrphanLoses(r, rows, targets);
      }
      FilterAgree(rules, both, own);
    }
  }

  /** An upsert reports every account whose rules it changed, and no account that neither is nor was a source. */
  lemma UpsertNotes(db: Db, q: Request, accounts: map<string, Account>, identity: string -> string, a: string)
    requires Valid(db)
    ensures var t := Upsert(db, q, accounts, identity);
      && (RulesOf(t.db.rules, a) != RulesOf(db.rules, a) ==> a in t.affected)
      && (a in t.affected ==> a in Sources(q) || Key(Source, a) in db.rows)
  {
    var c, sources := TrimSpace(q.collector), Sources(q);
    var targets := Targets(c, sources);
    var placed := PlacedRows(db.rows, c, sources, q.mode, identity);
    var st := Step(Db(placed, Pruned(db.rules, db.rows, targets), db.next), Losers(db.rows, targets));
    PlacedPlain(db, c, sources, q.mode, identity);
    PrunedNotes(db.rules, db.rows, targets, a);
    assert a in Losers(db.rows, targets) ==> Key(Source, a) in db.rows;
    hide Sources, TrimSpace, Route, RulesOf, Pruned, Losers, PlanOf, PlacedRows, Valid, Targets;
    RouteNotes(st, sources, PlanOf(q, accounts), a);
  }
}
