/** What a converged funnel is, over the fields of the request, the accounts and the rows, and where its mail goes. */
module FunnelLaws {
  import opened Text
  import opened Lists
  import opened ReplyFunnels
  import opened FunnelConvergence
  import M = Mailboxes
  import R = MailRules
  import S = Sieve

  lemma {:induction false} PositionMeans(sources: seq<string>, s: string)
    requires s in sources
    ensures Position(sources, s) < |sources| && sources[Position(sources, s)] == s
    ensures forall i :: 0 <= i < Position(sources, s) ==> sources[i] != s
  {
    if sources[0] != s {
      assert sources == [sources[0]] + sources[1..];
      PositionMeans(sources[1..], s);
    }
  }

  /** The state of assisted forwarding: a known one is kept, any other is pending; other modes have none. */
  lemma SettledMeans(f: Forwarding, mode: Mode, known: string)
    requires known in {"pending", "in_progress", "confirmed", "needs_help"}
    ensures !mode.Assisted? ==> Settled(f, mode) == Forwarding("not_required", "", 0, 0)
    ensures mode.Assisted? ==> var g := Settled(f, mode);
      && g == f.(state := g.state)
      && (PadsFold(f.state, known) ==> g.state == known)
      && (g.state != "pending" ==> PadsFold(f.state, g.state))
  {
    hide NormalizeState, PadsFold, FORWARDING_STATES;
    KnownStates(f.state);
    StateMeans(f.state, known);
    if NormalizeState(f.state) != "not_required" {
      StateMeans(f.state, NormalizeState(f.state));
    }
  }

  lemma KnownStates(raw: string)
    ensures FORWARDING_STATES == {"pending", "in_progress", "confirmed", "needs_help"}
    ensures "not_required" !in FORWARDING_STATES
    ensures NormalizeState(raw) in FORWARDING_STATES || NormalizeState(raw) == "not_required"
  {
    hide TrimSpace, ToLower;
  }

  lemma StateMeans(raw: string, known: string)
    requires known in FORWARDING_STATES
    ensures NormalizeState(raw) == known <==> PadsFold(raw, known)
  {
    KnownStates(raw);
    KnownIsPlain(known);
    PadsFoldExact(raw, known);
    hide TrimSpace, PadsFold, FORWARDING_STATES;
  }

  lemma KnownIsPlain(known: string)
    requires known in FORWARDING_STATES
    ensures Trimmed(known) && ToLower(known) == known
  {
  }

  /** The rows of a converged funnel: the collector first and alone, the sources in the order of the request. */
  lemma RowsConverged(db: Db, q: Request, accounts: map<string, Account>, identity: string -> string, s: string)
    requires Converged(db, q, accounts, identity) && s in Sources(q)
    ensures var c, k := Key(Collector, TrimSpace(q.collector)), Key(Source, s);
      && c in db.rows && db.rows[c].position == 0 && db.rows[c].error == "" && db.rows[c].rule == None
      && db.rows[c].identity == identity(c.account) && db.rows[c].forwarding == Forwarding("not_required", "", 0, 0)
      && k in db.rows && db.rows[k].error == "" && db.rows[k].identity == identity(s)
      && 0 <= db.rows[k].position < |Sources(q)| && Sources(q)[db.rows[k].position] == s
      && db.rows[k].forwarding == Settled(db.rows[k].forwarding, q.mode)
      && (db.rows[k].rule.Some? <==> q.mode.Managed?)
      && (forall other :: other in db.rows ==> other == c || (other.role.Source? && other.account in Sources(q)))
  {
    var sources := Sources(q);
    var c, k := Key(Collector, TrimSpace(q.collector)), Key(Source, s);
    PositionMeans(sources, s);
    assert PlanOf(q, accounts).mode == q.mode by { PlanMode(q, accounts); }
    hide Sources, TrimSpace, Settled, Position, PlanOf, Holds;
    assert c in db.rows && k in db.rows;
    assert InPlace(db.rows, c, sources, q.mode, identity) && InPlace(db.rows, k, sources, q.mode, identity);
    assert Routed(db, s, PlanOf(q, accounts));
  }

  lemma PlanMeans(q: Request, accounts: map<string, Account>, s: string)
    requires TrimSpace(q.collector) in accounts && s in accounts
    ensures WantedFor(PlanOf(q, accounts), s) ==
      Wanted(TrimSpace(q.name), accounts[s].login, accounts[TrimSpace(q.collector)].login)
    ensures PlanOf(q, accounts).mode == q.mode
  {
    hide TrimSpace, Wanted;
  }

  /** Where mail goes: in managed mode every source has a rule that sends its mail to the collector's login and stops,
      and which catches exactly the mail to the source's login if it has no further condition. */
  lemma ManagedRedirects(db: Db, q: Request, accounts: map<string, Account>, identity: string -> string, s: string,
      mailboxes: seq<M.Mailbox>) returns (r: StoredRule)
    requires Converged(db, q, accounts, identity) && q.mode.Managed? && s in Sources(q)
    requires TrimSpace(q.collector) in accounts && s in accounts
    requires TrimSpace(accounts[s].login) != "" && TrimSpace(accounts[TrimSpace(q.collector)].login) != ""
    ensures r in db.rules && r.account == s && db.rows[Key(Source, s)].rule == Some(r.id) && r.rule.enabled
    ensures var to := TrimSpace(accounts[TrimSpace(q.collector)].login);
      R.Effects(r.rule, mailboxes) == [S.RedirectedTo(to)] && r.rule.actions.stop
    ensures var login := TrimSpace(accounts[s].login);
      (forall m :: R.Fires(r.rule, m) <==> R.RecipientHas(m, login)) <==> OnlyTo(r.rule)
  {
    PlanMeans(q, accounts, s);
    var p := PlanOf(q, accounts);
    var w := WantedFor(p, s);
    assert Routed(db, s, p) by { hide Routed, Sources, PlanOf; }
    assert Key(Source, s) in db.rows && db.rows[Key(Source, s)].rule.Some?
      && Holds(db.rules, s, db.rows[Key(Source, s)].rule.value, w) by { hide Holds, PlanOf, Sources; }
    hide Sources, PlanOf, TrimSpace, Converged, Routed, Wanted, R.Effects, R.Fires, R.RecipientHas, OnlyTo;
    r :| r in db.rules && Named(r, s, db.rows[Key(Source, s)].rule.value) && Sound(r.rule, w);
    SoundRuleCovers(r.rule, TrimSpace(q.name), accounts[s].login, accounts[TrimSpace(q.collector)].login, mailboxes);
  }

  /** A rule that the funnel makes has no further condition. */
  lemma MadeRuleIsBare(name: string, login: string, collectorLogin: string)
    ensures OnlyTo(Written(Wanted(name, login, collectorLogin))) && Sound(Written(Wanted(name, login, collectorLogin)),
      Wanted(name, login, collectorLogin))
  {
    TrimSpaceIdempotent(login);
    TrimSpaceIdempotent(collectorLogin);
    NameTrimmed(name);
    assert TrimSpace("") == "" && TrimSpace("all") == "all";
    assert !EqualFold("all", "any") by { assert ToLower("all")[1] != ToLower("any")[1]; }
    hide TrimSpace, RuleName;
  }

  /** The name of the funnel's rules: a fixed beginning, then the funnel's name. */
  lemma NameTrimmed(name: string)
    ensures TrimSpace(RuleName(name)) == RuleName(name)
    ensures TrimSpace(name) != "" ==> RuleName(name) == "Despatch Funnel \U{00B7} " + TrimSpace(name)
  {
    TrimSpaceTrimmed(name);
    var n := RuleName(name);
    var tail := if TrimSpace(name) == "" then "Collector" else TrimSpace(name);
    assert n[|n| - 1] == tail[|tail| - 1];
    hide TrimSpace;
    TrimmedIsFixed(n);
  }

  /** What the store keeps of a rule: the mode is one of two, by what was written. */
  lemma StoredMode(r: R.Rule)
    ensures Written(r).matchMode == if PadsFold(r.matchMode, "any") then "any" else "all"
    ensures Written(r) == r.(name := TrimSpace(r.name), matchMode := Written(r).matchMode)
  {
    assert ToLower("any") == "any";
    PadsFoldExact(r.matchMode, "any");
    hide TrimSpace, PadsFold;
  }
}
