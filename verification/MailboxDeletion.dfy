/** Deleting a mailbox: which mailboxes may be deleted, where their messages go, and whether moving
    them there ends (internal/api/router_mail_special.go). */
module MailboxDeletion {
  import opened Text
  import opened Mailboxes
  import opened SpecialMailboxes
  import opened TrashRoles
  import D = DrainToTrash
  import opened DrainEnds

  /** The mailboxes as the handlers see them. */
  function Available(raws: seq<Listed>, mappings: Mappings): (r: seq<Mailbox>)
    ensures |r| == |raws|
  {
    AssignRoles(Rolled(raws), mappings, SPECIAL_ROLES)
  }

  /** The trash is resolved from the same mailboxes. */
  predicate ResolvesFrom(env: D.Env, raws: seq<Listed>, mappings: Mappings) {
    env.resolve == Some(ResolveMailboxByRole(Available(raws, mappings), "trash"))
  }

  lemma {:induction false} FoundTrimmed(mbs: seq<Mailbox>, role: string)
    ensures FirstByRole(mbs, role).Some? ==> Trimmed(FirstByRole(mbs, role).value)
    ensures FirstByName(mbs, role).Some? ==> Trimmed(FirstByName(mbs, role).value)
  {
    hide TrimSpace, RoleFromName, Trimmed, EqualFold;
    if mbs != [] {
      TrimSpaceTrimmed(mbs[0].name);
      FoundTrimmed(mbs[1..], role);
    }
  }

  lemma ResolvedTrimmed(mbs: seq<Mailbox>)
    ensures TrimSpace(ResolveMailboxByRole(mbs, "trash")) == ResolveMailboxByRole(mbs, "trash")
  {
    FoundTrimmed(mbs, ToLower(TrimSpace("trash")));
    TrimmedIsFixed(ResolveMailboxByRole(mbs, "trash"));
    hide TrimSpace, FirstByRole, FirstByName;
  }

  /** Messages of a mailbox go to that mailbox exactly when it is the resolved trash and its name
      has no outer blanks. */
  lemma GoesToItself(raws: seq<Listed>, mappings: Mappings, i: nat, env: D.Env)
    requires DistinctNames(Rolled(raws)) && i < |raws| && ResolvesFrom(env, raws, mappings)
    ensures var out := Available(raws, mappings); var trash := ResolveMailboxByRole(out, "trash");
      (Dest(env) != "" && Dest(env) == raws[i].name) <==>
        (trash != "" && Named(out[i], trash) && TrimSpace(raws[i].name) == raws[i].name)
  {
    var mbs := Rolled(raws);
    var out := Available(raws, mappings);
    var trash := ResolveMailboxByRole(out, "trash");
    FinalRoles(raws, mappings);
    ResolvedTrimmed(out);
    var x := TrashIsAt(mbs, mappings, out);
    hide AssignRoles, SPECIAL_ROLES, TrimSpace, ToLower, ResolveMailboxByRole, FinalRole, DistinctNames, MailboxRole,
        KNOWN_ROLES;
    if trash != "" && Named(out[i], trash) {
      SameName(out, i, x);
    }
  }

  /** Deleting a mailbox that may be deleted and holds messages, on a server that does not fail: the
      drain ends if and only if the mailbox is not an unguarded trash under its plain name. */
  lemma DeletionEndsExactly(raws: seq<Listed>, mappings: Mappings, i: nat, boxes: D.Boxes, calls: nat, env: D.Env)
    requires DistinctNames(Rolled(raws)) && i < |raws| && !Protected(Available(raws, mappings)[i])
    requires ResolvesFrom(env, raws, mappings) && Healthy(env)
    requires D.BoxOf(boxes, raws[i].name) != [] && NoBlankIDs(D.BoxOf(boxes, raws[i].name))
    ensures D.Ends(Begin(boxes, calls), raws[i].name, env) <==>
      !(TrashUnguarded(Rolled(raws), mappings, i) && TrimSpace(raws[i].name) == raws[i].name)
  {
    hide AssignRoles, SPECIAL_ROLES, TrimSpace, ResolveMailboxByRole, DistinctNames, Named, Protected, TrashUnguarded,
        Healthy,
      NoBlankIDs, Dest, D.Ends;
    GoesToItself(raws, mappings, i, env);
    DeletableTrashExactly(raws, mappings, i);
    DrainEndsExactly(boxes, calls, raws[i].name, env);
  }

  lemma StaleFacts()
    ensures DeletableTrash(STALE, BIN, 0) && |STALE| == 1 && STALE[0].name == "Trash" && TrimSpace("Trash") == "Trash"
    ensures DistinctNames(Rolled(STALE))
  {
    hide BIN, TrimSpace;
    StaleChoice();
    TrimmedIsFixed("Trash");
    hide DeletableTrash;
  }

  /** With a stale choice of trash, deleting the listed trash never ends: after every number of
      passes the loop is still running. */
  lemma StaleDrainRuns(boxes: D.Boxes, calls: nat, env: D.Env, n: nat)
    requires ResolvesFrom(env, STALE, BIN) && Healthy(env)
    requires "Trash" in boxes && boxes["Trash"] != [] && NoBlankIDs(boxes["Trash"])
    ensures !Protected(Available(STALE, BIN)[0])
    ensures D.Passes(Begin(boxes, calls), "Trash", env, n).Running?
  {
    StaleFacts();
    hide AssignRoles, SPECIAL_ROLES, TrimSpace, ResolveMailboxByRole, DistinctNames, Healthy, NoBlankIDs, Dest,
      D.Passes, BIN, STALE;
    GoesToItself(STALE, BIN, 0, env);
    NeverEmptiesIntoItself(boxes, calls, "Trash", env, n);
  }
}
