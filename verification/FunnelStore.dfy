/** The upsert of a reply funnel step by step, over tables that change in place
    (internal/api/router_mail_funnels.go, upsertReplyFunnel and its helpers). */
module FunnelStore {
  import opened Text
  import opened Lists
  import opened ReplyFunnels
  import opened FunnelConvergence
  import R = MailRules

  type Cache = map<string, seq<StoredRule>>

  /** Cached lists are what the table lists. */
  predicate Coherent(cache: Cache, rules: seq<StoredRule>) {
    forall a :: a in cache ==> cache[a] == RulesOf(rules, a)
  }

  // ----- lists of one account under a change to the table -----

  lemma {:induction false} RulesOfPut(rules: seq<StoredRule>, u: StoredRule, a: string)
    ensures RulesOf(PutRule(rules, u), a) == PutRule(RulesOf(rules, a), u)
  {
    if rules != [] {
      RulesOfPut(rules[1..], u, a);
      assert PutRule(rules, u)[1..] == PutRule(rules[1..], u);
    }
  }

  lemma {:induction false} FilterTwice<T>(xs: seq<T>, p: T -> bool, q: T -> bool, both: T -> bool)
    requires forall i :: 0 <= i < |xs| ==> (both(xs[i]) <==> p(xs[i]) && q(xs[i]))
    ensures Filter(Filter(xs, p), q) == Filter(xs, both)
  {
    if xs != [] {
      FilterTwice(xs[1..], p, q, both);
      var head := if p(xs[0]) then [xs[0]] else [];
      FilterAppend(head, Filter(xs[1..], p), q);
      assert Filter(head, q) == if both(xs[0]) then [xs[0]] else [];
    }
  }

  lemma RulesOfDrop(rules: seq<StoredRule>, account: string, id: RuleID, a: string)
    ensures RulesOf(DropRule(rules, account, id), a) == DropRule(RulesOf(rules, a), account, id)
  {
    var own, keep := (r: StoredRule) => r.account == a, (r: StoredRule) => !Named(r, account, id);
    var both := (r: StoredRule) => r.account == a && !Named(r, account, id);
    FilterTwice(rules, keep, own, both);
    FilterTwice(rules, own, keep, both);
  }

  lemma RulesOfOwn(rules: seq<StoredRule>, a: string)
    ensures forall r :: r in RulesOf(rules, a) <==> r in rules && r.account == a
  {
    FilterMembers(rules, (r: StoredRule) => r.account == a);
  }

  lemma PutElsewhere(rules: seq<StoredRule>, u: StoredRule, a: string)
    requires a != u.account
    ensures RulesOf(PutRule(rules, u), a) == RulesOf(rules, a)
  {
    RulesOfPut(rules, u, a);
    RulesOfOwn(rules, a);
    var own := RulesOf(rules, a);
    assert forall i :: 0 <= i < |own| ==> own[i] in own;
    assert PutRule(own, u) == own;
  }

  lemma DropElsewhere(rules: seq<StoredRule>, account: string, id: RuleID, a: string)
    requires a != account
    ensures RulesOf(DropRule(rules, account, id), a) == RulesOf(rules, a)
  {
    RulesOfDrop(rules, account, id, a);
    RulesOfOwn(rules, a);
    var own := RulesOf(rules, a);
    assert forall i :: 0 <= i < |own| ==> own[i] in own;
    FilterAll(own, (r: StoredRule) => !Named(r, account, id));
  }

  lemma RulesOfSnoc(rules: seq<StoredRule>, made: StoredRule, a: string)
    ensures RulesOf(rules + [made], a) == RulesOf(rules, a) + if made.account == a then [made] else []
  {
    FilterSnoc(rules, made, (r: StoredRule) => r.account == a);
  }

  /** Replaces the item with the id of `u`. */
  method ReplaceItem(items: seq<StoredRule>, u: StoredRule) returns (out: seq<StoredRule>)
    requires forall i :: 0 <= i < |items| ==> items[i].account == u.account
    ensures out == PutRule(items, u)
  {
    out := items;
    for i := 0 to |items|
      invariant |out| == |items|
      invariant forall j :: 0 <= j < |items| ==>
        out[j] == if j < i && Named(items[j], u.account, u.id) then u else items[j]
    {
      if out[i].id == u.id {
        out := out[i := u];
      }
    }
  }

  method FirstAlike(items: seq<StoredRule>, w: R.Rule) returns (found: Option<StoredRule>)
    ensures found == First(items, (r: StoredRule) => Alike(r.rule, w))
  {
    hide Alike;
    for i := 0 to |items|
      invariant First(items, (r: StoredRule) => Alike(r.rule, w)) ==
        First(items[i..], (r: StoredRule) => Alike(r.rule, w))
    {
      assert items[i..][1..] == items[i + 1..];
      if Alike(items[i].rule, w) {
        return Some(items[i]);
      }
    }
    return None;
  }

  /** Looks at a request before anything is written. */
  method CheckRequest(q: Request, accounts: map<string, Account>) returns (refusal: Option<Error>, sources: seq<string>)
    ensures refusal == Refusal(q, accounts) && sources == Sources(q)
  {
    sources := NormalizeSourceAccountIDs(q.sources, q.collector);
    hide TrimSpace, SourcesFrom;
    if TrimSpace(q.collector) !in accounts {
      return Some(CollectorRequired), sources;
    }
    if sources == [] {
      return Some(NoSource), sources;
    }
    for i := 0 to |sources|
      invariant forall j :: 0 <= j < i ==> sources[j] in accounts
    {
      if sources[i] !in accounts {
        return Some(SourceUnavailable), sources;
      }
    }
    if q.mode.Assisted? {
      for i := 0 to |sources|
        invariant forall j :: 0 <= j < i ==> accounts[sources[j]].canForward
      {
        if !accounts[sources[i]].canForward {
          return Some(ForwardingUnsupported), sources;
        }
      }
    }
    refusal := if TrimSpace(q.name) == "" then Some(NameRequired) else None;
  }

  /** Rows that point to a deleted rule lose it when the database enforces the reference. */
  function Unlink(rows: map<Key, Row>, id: RuleID): map<Key, Row> {
    map k | k in rows :: if rows[k].rule == Some(id) then rows[k].(rule := None) else rows[k]
  }

  class Store {
    var rows: map<Key, Row>
    var rules: seq<StoredRule>
    var next: RuleID
    const enforce: bool

    constructor (rows: map<Key, Row>, rules: seq<StoredRule>, next: RuleID, enforce: bool)
      ensures State() == Db(rows, rules, next) && this.enforce == enforce
    {
      this.rows, this.rules, this.next, this.enforce := rows, rules, next, enforce;
    }

    function State(): Db
      reads this
    {
      Db(rows, rules, next)
    }

    method DeleteMailRule(account: string, id: RuleID)
      modifies this
      ensures rules == DropRule(old(rules), account, id) && next == old(next)
      ensures rows == if enforce then Unlink(old(rows), id) else old(rows)
    {
      rules := DropRule(rules, account, id);
      if enforce {
        rows := Unlink(rows, id);
      }
    }

    /** Leaves a row pointing to a sound rule; the cache stays coherent. */
    method EnsureRedirectRule(account: string, w: R.Rule, row: Row, cache: Cache)
      returns (updated: Row, changed: bool, cache': Cache)
      requires Coherent(cache, rules)
      modifies this
      ensures Coherent(cache', rules) && rows == old(rows)
      ensures var found := Find(old(rules), account, row.rule, w);
        && rules == WithRule(old(rules), old(next), account, found, w)
        && next == (if found.None? then old(next) + 1 else old(next))
        && updated == row.(rule := Some(if found.Some? then found.value.id else old(next)), error := "")
        && changed == (found.None? || !Sound(found.value.rule, w))
    {
      cache' := cache;
      hide Sound, Alike, Written;
      var found: Option<StoredRule> := None;
      if row.rule.Some? {
        found := GetRule(rules, account, row.rule.value);
      }
      if found.None? {
        if account !in cache' {
          cache' := cache'[account := RulesOf(rules, account)];
        }
        found := FirstAlike(cache'[account], w);
      }
      assert found == Find(rules, account, row.rule, w);
      FoundIsOwn(rules, account, row.rule, w);
      if found.None? {
        var created := StoredRule(next, account, Written(w));
        CreateCoherent(cache', rules, created);
        rules := rules + [created];
        next := next + 1;
        cache' := cache'[account := cache'[account] + [created]];
        return row.(rule := Some(created.id), error := ""), true, cache';
      }
      changed := !Sound(found.value.rule, w);
      if changed {
        var u := StoredRule(found.value.id, account, Written(w));
        ghost var before := rules;
        rules := PutRule(rules, u);
        var items := if account in cache' then cache'[account] else RulesOf(rules, account);
        ItemsOwn(before, rules, u, items);
        items := ReplaceItem(items, u);
        PutCoherent(cache', before, u);
        cache' := cache'[account := items];
      }
      updated := row.(rule := Some(found.value.id), error := "");
    }

    /** Leaves a row pointing to no rule. */
    method DeleteRedirectRule(account: string, row: Row, cache: Cache)
      returns (updated: Row, changed: bool, cache': Cache)
      requires Coherent(cache, rules)
      modifies this
      ensures Coherent(cache', rules) && next == old(next)
      ensures updated == row.(rule := None, error := "") && changed == row.rule.Some?
      ensures row.rule.None? ==> rules == old(rules) && rows == old(rows)
      ensures row.rule.Some? ==> rules == DropRule(old(rules), account, row.rule.value)
      ensures row.rule.Some? ==> rows == if enforce then Unlink(old(rows), row.rule.value) else old(rows)
    {
      cache' := cache;
      if row.rule.None? {
        return row.(error := ""), false, cache';
      }
      var id := row.rule.value;
      ghost var before := rules;
      DeleteMailRule(account, id);
      DropCoherent(cache, before, account, id);
      if account in cache' {
        cache' := cache'[account := DropRule(cache'[account], account, id)];
      }
      return row.(rule := None, error := ""), true, cache';
    }

    /** Writes a row for the collector and for each source, in order. */
    method PlaceRows(collector: string, sources: seq<string>, mode: Mode, existing: map<Key, Row>)
      returns (kept: map<Key, Row>)
      requires rows == existing && Distinct(sources)
      modifies this
      ensures rules == old(rules) && next == old(next)
      ensures kept.Keys == Targets(collector, sources) && rows.Keys == existing.Keys + kept.Keys
      ensures forall k :: k in kept ==> Arranged(kept[k], existing, k, sources, mode)
    {
      hide Position, Settled;
      var ck := Key(Collector, collector);
      kept := map[ck := Existing(existing, ck).(position := 0, error := "", forwarding := IDLE)];
      rows := rows[ck := kept[ck]];
      for i := 0 to |sources|
        invariant rules == old(rules) && next == old(next)
        invariant kept.Keys == Targets(collector, sources[..i]) && rows.Keys == existing.Keys + kept.Keys
        invariant forall k :: k in kept ==> Arranged(kept[k], existing, k, sources, mode)
      {
        var k := Key(Source, sources[i]);
        PositionOf(sources, i);
        TargetsSnoc(collector, sources, i);
        var row := Existing(existing, k);
        row := row.(position := i, error := "", forwarding := Settled(row.forwarding, mode));
        assert Arranged(row, existing, k, sources, mode);
        hide Arranged, Targets;
        rows := rows[k := row];
        kept := kept[k := row];
      }
      assert sources[..|sources|] == sources;
    }

    /** Deletes the rows a request no longer asks for, and the rules they point to. */
    method PruneRows(existing: map<Key, Row>, targets: set<Key>) returns (affected: set<string>)
      requires rows.Keys == existing.Keys + targets
      modifies this
      ensures rows.Keys == targets && next == old(next)
      ensures rules == Pruned(old(rules), existing, targets)
      ensures affected == Losers(existing, targets)
    {
      affected := {};
      var todo := existing.Keys;
      PrunedNone(rules, targets);
      assert existing - todo == map[];
      while todo != {}
        invariant todo <= existing.Keys && next == old(next)
        invariant rows.Keys == targets + todo
        invariant rules == Pruned(old(rules), existing - todo, targets)
        invariant affected == Losers(existing - todo, targets)
      {
        var k :| k in todo;
        var row := existing[k];
        PrunedOne(old(rules), existing, todo, k, targets);
        LosersOne(existing, todo, k, targets);
        todo := todo - {k};
        hide Pruned, Losers, DropRule;
        if k !in targets {
          if k.role.Source? && row.rule.Some? {
            DeleteMailRule(k.account, row.rule.value);
            affected := affected + {k.account};
          }
          rows := rows - {k};
        }
      }
      assert existing - todo == existing;
    }

    /** Sets the sender identity of every row and writes the rows again. */
    method AssignIdentities(kept: map<Key, Row>, identity: string -> string) returns (named: map<Key, Row>)
      requires rows.Keys == kept.Keys
      modifies this
      ensures rules == old(rules) && next == old(next) && rows == named
      ensures named == map k | k in kept :: kept[k].(identity := identity(k.account), error := "")
    {
      named := kept;
      var todo := kept.Keys;
      while todo != {}
        invariant todo <= kept.Keys == named.Keys == rows.Keys
        invariant rules == old(rules) && next == old(next)
        invariant forall k :: k in kept && k in todo ==> named[k] == kept[k]
        invariant forall k :: k in kept && k !in todo ==>
          rows[k] == named[k] == kept[k].(identity := identity(k.account), error := "")
      {
        var k :| k in todo;
        var row := kept[k].(identity := identity(k.account), error := "");
        rows := rows[k := row];
        named := named[k := row];
        todo := todo - {k};
      }
    }

    /** Brings the rule of one source, and the row pointing to it, to what the mode asks. */
    method RouteSource(a: string, row: Row, p: Plan, cache: Cache, noted: set<string>, ghost st: Step,
        ghost kept: map<Key, Row>, ghost done: seq<string>)
      returns (affected: set<string>, cache': Cache)
      requires Coherent(cache, rules)
      requires Ahead(State(), noted, st, kept, done) && Waiting(st.db.rows, kept, done, a, p.mode)
        && row == kept[Key(Source, a)]
      modifies this
      ensures Coherent(cache', rules)
      ensures Ahead(State(), affected, RouteOne(st, a, p), kept, done + [a])
    {
      ghost var db := State();
      var w := WantedFor(p, a);
      var updated, changed;
      if p.mode.Managed? {
        AheadManaged(db, noted, st, kept, done, a, w);
        hide Coherent, Find, WithRule, Sound, WantedFor, Ahead;
        updated, changed, cache' := EnsureRedirectRule(a, w, row, cache);
      } else {
        AheadOther(db, noted, st, kept, done, a, p.mode, enforce);
        hide Coherent, DropRule, Unlink, WantedFor, Ahead;
        updated, changed, cache' := DeleteRedirectRule(a, row, cache);
        updated := updated.(forwarding := Settled(updated.forwarding, p.mode));
      }
      rows := rows[Key(Source, a) := updated];
      affected := Noted(noted, a, changed);
    }

    /** Brings the rule of each source, and the row pointing to it, to what the mode asks. */
    method RouteSources(kept: map<Key, Row>, sources: seq<string>, p: Plan, before: set<string>)
      returns (affected: set<string>)
      requires rows == kept && Ready(State(), sources)
      modifies this
      ensures Step(State(), affected) == Route(Step(old(State()), before), sources, p)
    {
      affected := before;
      ghost var start := Step(State(), before);
      var cache: Cache := map[];
      hide RouteOne, Waiting, RulesOf, Ready, Ahead, Route, HasSources;
      RouteStart(start, sources, p);
      for i := 0 to |sources|
        invariant Coherent(cache, rules)
        invariant HasSources(kept, sources[..i])
        invariant Ahead(State(), affected, Route(start, sources[..i], p), kept, sources[..i])
      {
        RouteTurn(start, sources, i, p);
        affected, cache := RouteSource(sources[i], kept[Key(Source, sources[i])], p, cache, affected,
          Route(start, sources[..i], p), kept, sources[..i]);
      }
      AheadAll(start, sources, p, State(), affected);
    }

    /** The whole upsert: refused requests change nothing, accepted ones reach their state. */
    method UpsertReplyFunnel(q: Request, accounts: map<string, Account>, identity: string -> string)
      returns (refusal: Option<Error>, affected: set<string>)
      requires Valid(State())
      modifies this
      ensures refusal == Refusal(q, accounts)
      ensures refusal.Some? ==> State() == old(State()) && affected == {}
      ensures refusal.None? ==> Step(State(), affected) == Upsert(old(State()), q, accounts, identity)
      ensures refusal.None? ==> Converged(State(), q, accounts, identity)
      ensures old(Converged(State(), q, accounts, identity)) ==> State() == old(State()) && affected == {}
    {
      affected := {};
      var collector := TrimSpace(q.collector);
      var sources;
      refusal, sources := CheckRequest(q, accounts);
      if refusal.Some? {
        return;
      }
      ghost var db := State();
      SourcesExact(q.sources, collector, {});
      var existing := rows;
      hide TrimSpace, Sources, SourcesFrom, Refusal, Position, PlanOf, Route, Converged;
      var kept := PlaceRows(collector, sources, q.mode, existing);
      affected := PruneRows(existing, kept.Keys);
      kept := AssignIdentities(kept, identity);
      PlacedIs(kept, existing, collector, sources, q.mode, identity);
      PlacedReady(db, collector, sources, q.mode, identity);
      hide Ready, Pruned, Losers, PlacedRows, Valid;
      affected := RouteSources(kept, sources, PlanOf(q, accounts), affected);
      UpsertConverges(db, q, accounts, identity);
      if Converged(db, q, accounts, identity) {
        RepeatChangesNothing(db, q, accounts, identity);
      }
    }
  }

  lemma CreateCoherent(cache: Cache, rules: seq<StoredRule>, made: StoredRule)
    requires Coherent(cache, rules) && made.account in cache
    ensures Coherent(cache[made.account := cache[made.account] + [made]], rules + [made])
  {
    forall a | a in cache ensures RulesOf(rules + [made], a) ==
      RulesOf(rules, a) + if made.account == a then [made] else [] {
      RulesOfSnoc(rules, made, a);
    }
    hide RulesOf;
  }

  /** The items to update, read before or after the table was, and what replacing gives. */
  lemma ItemsOwn(before: seq<StoredRule>, rules: seq<StoredRule>, u: StoredRule, items: seq<StoredRule>)
    requires rules == PutRule(before, u) && (items == RulesOf(before, u.account) || items == RulesOf(rules, u.account))
    ensures forall i :: 0 <= i < |items| ==> items[i].account == u.account
    ensures PutRule(items, u) == RulesOf(rules, u.account)
  {
    RulesOfPut(before, u, u.account);
    RulesOfOwn(before, u.account);
    RulesOfOwn(rules, u.account);
    assert forall i :: 0 <= i < |items| ==> items[i] in items;
    hide RulesOf;
    assert PutRule(PutRule(items, u), u) == PutRule(items, u);
  }

  lemma PutCoherent(cache: Cache, rules: seq<StoredRule>, u: StoredRule)
    requires Coherent(cache, rules)
    ensures Coherent(cache[u.account := RulesOf(PutRule(rules, u), u.account)], PutRule(rules, u))
  {
    forall a | a in cache && a != u.account ensures RulesOf(PutRule(rules, u), a) == RulesOf(rules, a) {
      PutElsewhere(rules, u, a);
    }
    hide RulesOf, PutRule;
  }

  lemma DropCoherent(cache: Cache, rules: seq<StoredRule>, account: string, id: RuleID)
    requires Coherent(cache, rules)
    ensures var after := DropRule(rules, account, id);
      Coherent(if account in cache then cache[account := DropRule(cache[account], account, id)] else cache, after)
  {
    forall a | a in cache
      ensures RulesOf(DropRule(rules, account, id), a) ==
        if a == account then DropRule(RulesOf(rules, a), account, id) else RulesOf(rules, a)
    {
      if a == account {
        RulesOfDrop(rules, account, id, a);
      } else {
        DropElsewhere(rules, account, id, a);
      }
    }
    hide RulesOf, DropRule;
  }

  // ----- the phases -----

  /** A row placed, its sender identity and rule as they were. */
  predicate Arranged(row: Row, existing: map<Key, Row>, k: Key, sources: seq<string>, mode: Mode) {
    var e := Existing(existing, k);
    row == e.(position := if k.role.Collector? then 0 else Position(sources, k.account), error := "",
              forwarding := if k.role.Collector? then IDLE else Settled(e.forwarding, mode))
  }

  lemma {:induction false} PositionOf(sources: seq<string>, i: nat)
    requires Distinct(sources) && i < |sources|
    ensures Position(sources, sources[i]) == i
  {
    if i > 0 {
      PositionOf(sources[1..], i - 1);
    }
  }

  lemma TargetsSnoc(collector: string, sources: seq<string>, i: nat)
    requires i < |sources|
    ensures Targets(collector, sources[..i + 1]) == Targets(collector, sources[..i]) + {Key(Source, sources[i])}
  {
    assert sources[..i + 1] == sources[..i] + [sources[i]];
  }

  lemma {:induction false} FilterAgree<T>(xs: seq<T>, p: T -> bool, q: T -> bool)
    requires forall x :: x in xs ==> (p(x) <==> q(x))
    ensures Filter(xs, p) == Filter(xs, q)
  {
    if xs != [] {
      FilterAgree(xs[1..], p, q);
    }
  }

  lemma PrunedNone(rules: seq<StoredRule>, targets: set<Key>)
    ensures Pruned(rules, map[], targets) == rules
  {
    FilterAll(rules, (r: StoredRule) => !Orphaned(r, map[], targets));
  }

  lemma PrunedOne(rules: seq<StoredRule>, existing: map<Key, Row>, todo: set<Key>, k: Key, targets: set<Key>)
    requires todo <= existing.Keys && k in todo
    ensures var before := Pruned(rules, existing - todo, targets);
      Pruned(rules, existing - (todo - {k}), targets) ==
      if k !in targets && k.role.Source? && existing[k].rule.Some?
        then DropRule(before, k.account, existing[k].rule.value) else before
  {
    var keep := (r: StoredRule) => !Orphaned(r, existing - todo, targets);
    var keep' := (r: StoredRule) => !Orphaned(r, existing - (todo - {k}), targets);
    if k !in targets && k.role.Source? && existing[k].rule.Some? {
      var q := (r: StoredRule) => !Named(r, k.account, existing[k].rule.value);
      FilterTwice(rules, keep, q, keep');
    } else {
      FilterAgree(rules, keep', keep);
    }
  }

  lemma LosersOne(existing: map<Key, Row>, todo: set<Key>, k: Key, targets: set<Key>)
    requires todo <= existing.Keys && k in todo
    ensures Losers(existing - (todo - {k}), targets) ==
      Losers(existing - todo, targets) + if k !in targets && k.role.Source? && existing[k].rule.Some? then {k.account}
        else {}
  {
    var now, was := existing - (todo - {k}), existing - todo;
    assert forall j :: j in now <==> j in was || j == k;
    assert forall j :: j in was ==> now[j] == was[j];
    var lost := k !in targets && k.role.Source? && existing[k].rule.Some?;
    forall a ensures a in Losers(now, targets) <==> a in Losers(was, targets) || (lost && a == k.account) {
      if a in Losers(now, targets) {
        var j :| j in now && j !in targets && j.role.Source? && now[j].rule.Some? && j.account == a;
      }
      if a in Losers(was, targets) {
        var j :| j in was && j !in targets && j.role.Source? && was[j].rule.Some? && j.account == a;
        assert j in now;
      }
      if lost {
        assert k in now;
      }
    }
  }

  /** Where the loop stands: as routing the sources so far, except that rows still to be routed
      may have lost their rules to deletions. */
  ghost predicate Ahead(db: Db, affected: set<string>, st: Step, kept: map<Key, Row>, done: seq<string>) {
    && db.rules == st.db.rules && db.next == st.db.next && affected == st.affected
    && db.rows.Keys == st.db.rows.Keys == kept.Keys
    && (forall k :: k in kept && (k.role.Collector? || k.account in done) ==> db.rows[k] == st.db.rows[k])
  }

  /** A source whose turn it is, its row as placed; no row behind has a rule to lose. */
  ghost predicate Waiting(rows: map<Key, Row>, kept: map<Key, Row>, done: seq<string>, a: string, mode: Mode) {
    var k := Key(Source, a);
    && k in kept && k in rows && rows[k] == kept[k]
    && (!mode.Managed? ==> forall k :: k in kept && k in rows && (k.role.Collector? || k.account in done) ==>
      rows[k].rule.None?)
  }

  /** Tables ready for routing: every row placed, rule ids unique, no rule on the collector. */
  ghost predicate Ready(db: Db, sources: seq<string>) {
    && Distinct(sources) && HasSources(db.rows, sources)
    && DistinctIDs(db.rules) && IDsBelow(db.rules, db.next)
    && (forall k :: k in db.rows && k.role.Collector? ==> db.rows[k].rule.None?)
    && (forall k :: k in db.rows && k.role.Source? ==> k.account in sources)
  }

  lemma RouteStart(st: Step, sources: seq<string>, p: Plan)
    requires Ready(st.db, sources)
    ensures HasSources(st.db.rows, sources[..0]) && HasSources(st.db.rows, sources)
    ensures Ahead(st.db, st.affected, Route(st, sources[..0], p), st.db.rows, sources[..0])
  {
  }

  lemma RouteTurn(st: Step, sources: seq<string>, i: nat, p: Plan)
    requires Ready(st.db, sources) && i < |sources|
    ensures HasSources(st.db.rows, sources[..i]) && HasSources(st.db.rows, sources[..i + 1])
    ensures sources[..i] + [sources[i]] == sources[..i + 1]
    ensures Waiting(Route(st, sources[..i], p).db.rows, st.db.rows, sources[..i], sources[i], p.mode)
    ensures Route(st, sources[..i + 1], p) == RouteOne(Route(st, sources[..i], p), sources[i], p)
  {
    var done, next := sources[..i], sources[..i + 1];
    assert next[..i] == done && next == done + [sources[i]];
    assert sources[i] !in done;
    assert HasSources(st.db.rows, done) && HasSources(st.db.rows, next);
    RouteStands(st, done, sources[i], p);
    hide Waiting, RouteOne, DistinctIDs, IDsBelow;
    RouteUnfolds(st, next, p);
  }

  lemma RouteUnfolds(st: Step, sources: seq<string>, p: Plan)
    requires HasSources(st.db.rows, sources) && sources != []
    ensures HasSources(st.db.rows, sources[..|sources| - 1])
    ensures Route(st, sources, p) == RouteOne(Route(st, sources[..|sources| - 1], p), sources[|sources| - 1], p)
  {
    hide RouteOne;
  }

  lemma RouteStands(st: Step, done: seq<string>, a: string, p: Plan)
    requires HasSources(st.db.rows, done) && DistinctIDs(st.db.rules) && IDsBelow(st.db.rules, st.db.next)
    requires Key(Source, a) in st.db.rows && a !in done
    requires forall k :: k in st.db.rows && k.role.Collector? ==> st.db.rows[k].rule.None?
    ensures Waiting(Route(st, done, p).db.rows, st.db.rows, done, a, p.mode)
  {
    RouteConverges(st, done, p);
    var db := Route(st, done, p).db;
    hide Route;
    assert !p.mode.Managed? ==> forall s :: s in done ==> db.rows[Key(Source, s)].rule.None?;
  }

  lemma AheadAll(st: Step, sources: seq<string>, p: Plan, db: Db, affected: set<string>)
    requires Ready(st.db, sources) && HasSources(st.db.rows, sources[..|sources|])
    requires Ahead(db, affected, Route(st, sources[..|sources|], p), st.db.rows, sources[..|sources|])
    ensures Step(db, affected) == Route(st, sources, p)
  {
    assert sources[..|sources|] == sources;
    hide Route;
    assert db.rows == Route(st, sources, p).db.rows;
  }

  lemma AheadManaged(db: Db, affected: set<string>, st: Step, kept: map<Key, Row>, done: seq<string>, a: string,
      w: R.Rule)
    requires Ahead(db, affected, st, kept, done) && Key(Source, a) in kept
      && st.db.rows[Key(Source, a)] == kept[Key(Source, a)]
    ensures var k := Key(Source, a); var row := kept[k]; var found := Find(db.rules, a, row.rule, w);
      Ahead(
        Db(db.rows[k := row.(rule := Some(if found.Some? then found.value.id else db.next), error := "")],
           WithRule(db.rules, db.next, a, found, w),
           if found.None? then db.next + 1 else db.next),
        Noted(affected, a, found.None? || !Sound(found.value.rule, w)),
        RouteManaged(st, a, w), kept, done + [a])
  {
    hide Find, WithRule, Sound;
  }

  lemma AheadOther(db: Db, affected: set<string>, st: Step, kept: map<Key, Row>, done: seq<string>, a: string,
      mode: Mode, enforce: bool)
    requires Ahead(db, affected, st, kept, done) && Waiting(st.db.rows, kept, done, a, mode) && !mode.Managed?
    ensures var k := Key(Source, a); var row := kept[k];
      var rows := if row.rule.Some? && enforce then Unlink(db.rows, row.rule.value) else db.rows;
      Ahead(
        Db(rows[k := row.(rule := None, error := "", forwarding := Settled(row.forwarding, mode))],
           if row.rule.None? then db.rules else DropRule(db.rules, a, row.rule.value),
           db.next),
        Noted(affected, a, row.rule.Some?),
        RouteOther(st, a, mode), kept, done + [a])
  {
    hide DropRule;
  }

  lemma PlacedIs(kept: map<Key, Row>, existing: map<Key, Row>, collector: string, sources: seq<string>, mode: Mode,
      identity: string -> string)
    requires kept.Keys == Targets(collector, sources)
    requires forall k :: k in kept ==> kept[k] == Placed(existing, k, sources, mode, identity)
    ensures kept == PlacedRows(existing, collector, sources, mode, identity)
  {
    hide Placed;
  }

  lemma PlacedReady(db: Db, collector: string, sources: seq<string>, mode: Mode, identity: string -> string)
    requires Valid(db) && Distinct(sources)
    ensures var placed := PlacedRows(db.rows, collector, sources, mode, identity);
      Ready(Db(placed, Pruned(db.rules, db.rows, Targets(collector, sources)), db.next), sources)
  {
    PrunedIsValid(db, Targets(collector, sources));
    hide Pruned, Position;
  }
}
