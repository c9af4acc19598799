/** Special mailbox roles, what may be deleted, and the drain of a mailbox into the trash:
    internal/api/router_mail_special.go. */
module SpecialMailboxes {
  import opened Text
  import opened Mailboxes

  const SPECIAL_ROLES := ["sent", "archive", "trash", "junk"]
  const APP_DRAFTS := "__despatch_app_drafts__"

  /** The user's choice of mailbox for a role; absent entries read as blank. */
  type Mappings = map<string, string>

  function Target(mappings: Mappings, role: string): string {
    if role in mappings then TrimSpace(mappings[role]) else ""
  }

  predicate Named(mb: Mailbox, name: string) {
    EqualFold(TrimSpace(mb.name), name)
  }

  predicate HoldsRole(mb: Mailbox, role: string) {
    ToLower(TrimSpace(mb.role)) == role
  }

  // ----- assigning roles -----

  /** Other mailboxes lose the role. */
  function ClearRole(mbs: seq<Mailbox>, role: string, target: string): (r: seq<Mailbox>)
    ensures |r| == |mbs|
    ensures forall i :: 0 <= i < |mbs| ==>
      r[i] == if HoldsRole(mbs[i], role) && !Named(mbs[i], target) then mbs[i].(role := "") else mbs[i]
  {
    seq(|mbs|, i requires 0 <= i < |mbs| =>
      if HoldsRole(mbs[i], role) && !Named(mbs[i], target) then mbs[i].(role := "") else mbs[i])
  }

  /** The first mailbox of that name gets it. */
  function ClaimRole(mbs: seq<Mailbox>, role: string, target: string): (r: seq<Mailbox>)
    ensures |r| == |mbs|
  {
    if mbs == [] then []
    else if Named(mbs[0], target) then [mbs[0].(role := role)] + mbs[1..]
    else [mbs[0]] + ClaimRole(mbs[1..], role, target)
  }

  function AssignRole(mbs: seq<Mailbox>, role: string, target: string): (r: seq<Mailbox>)
    ensures |r| == |mbs|
  {
    if target == "" then mbs else ClaimRole(ClearRole(mbs, role, target), role, target)
  }

  function AssignRoles(mbs: seq<Mailbox>, mappings: Mappings, roles: seq<string>): (r: seq<Mailbox>)
    ensures |r| == |mbs|
    decreases |roles|
  {
    if roles == [] then mbs
    else AssignRoles(AssignRole(mbs, roles[0], Target(mappings, roles[0])), mappings, roles[1..])
  }

  method ClearOthers(mailboxes: seq<Mailbox>, role: string, target: string) returns (out: seq<Mailbox>)
    ensures out == ClearRole(mailboxes, role, target)
  {
    hide Named, HoldsRole;
    out := mailboxes;
    for i := 0 to |out|
      invariant |out| == |mailboxes|
      invariant forall j :: 0 <= j < i ==> out[j] == ClearRole(mailboxes, role, target)[j]
      invariant forall j :: i <= j < |out| ==> out[j] == mailboxes[j]
    {
      if HoldsRole(out[i], role) && !Named(out[i], target) {
        out := out[i := out[i].(role := "")];
      }
    }
  }

  method ClaimFirst(mailboxes: seq<Mailbox>, role: string, target: string) returns (out: seq<Mailbox>)
    ensures out == ClaimRole(mailboxes, role, target)
  {
    hide Named;
    out := mailboxes;
    for i := 0 to |out|
      invariant out == mailboxes
      invariant ClaimRole(mailboxes, role, target) == mailboxes[..i] + ClaimRole(mailboxes[i..], role, target)
    {
      assert mailboxes[i..][1..] == mailboxes[i + 1..];
      if Named(out[i], target) {
        out := out[i := out[i].(role := role)];
        assert out == mailboxes[..i] + ([mailboxes[i].(role := role)] + mailboxes[i + 1..]);
        return;
      }
      assert mailboxes[..i] + ([mailboxes[i]] + ClaimRole(mailboxes[i + 1..], role, target))
          == mailboxes[..i + 1] + ClaimRole(mailboxes[i + 1..], role, target);
    }
  }

  method ApplySpecialMailboxRoles(mailboxes: seq<Mailbox>, mappings: Mappings) returns (out: seq<Mailbox>)
    ensures out == AssignRoles(mailboxes, mappings, SPECIAL_ROLES)
  {
    hide AssignRole, Target, ClearRole, ClaimRole;
    out := mailboxes;
    for k := 0 to |SPECIAL_ROLES|
      invariant AssignRoles(out, mappings, SPECIAL_ROLES[k..]) == AssignRoles(mailboxes, mappings, SPECIAL_ROLES)
    {
      var role := SPECIAL_ROLES[k];
      assert SPECIAL_ROLES[k..][1..] == SPECIAL_ROLES[k + 1..];
      var target := Target(mappings, role);
      if target == "" {
        BlankTarget(out, role);
        continue;
      }
      ghost var start := out;
      out := ClearOthers(out, role, target);
      out := ClaimFirst(out, role, target);
      assert out == AssignRole(start, role, target) by { NonBlankTarget(start, role, target); }
    }
  }

  lemma BlankTarget(mbs: seq<Mailbox>, role: string)
    ensures AssignRole(mbs, role, "") == mbs
  {
  }

  lemma NonBlankTarget(mbs: seq<Mailbox>, role: string, target: string)
    requires target != ""
    ensures AssignRole(mbs, role, target) == ClaimRole(ClearRole(mbs, role, target), role, target)
  {
  }

  predicate Protected(mb: Mailbox) {
    EqualFold(TrimSpace(mb.name), APP_DRAFTS) || TrimSpace(mb.role) != ""
  }

  method ApplyMailboxCapabilities(items: seq<Mailbox>) returns (out: seq<Mailbox>)
    ensures |out| == |items|
    ensures forall i :: 0 <= i < |items| ==>
      out[i] == items[i].(canRename := !Protected(items[i]), canDelete := !Protected(items[i]))
  {
    hide Protected;
    out := items;
    for i := 0 to |out|
      invariant |out| == |items|
      invariant forall j :: 0 <= j < i ==>
        out[j] == items[j].(canRename := !Protected(items[j]), canDelete := !Protected(items[j]))
      invariant forall j :: i <= j < |items| ==> out[j] == items[j]
    {
      var p := Protected(out[i]);
      out := out[i := out[i].(canRename := !p, canDelete := !p)];
    }
  }

  // ----- what may be deleted is never the trash -----

  function FoldedName(mb: Mailbox): string {
    ToLower(TrimSpace(mb.name))
  }

  predicate DistinctNames(mbs: seq<Mailbox>) {
    forall i, j :: 0 <= i < j < |mbs| ==> FoldedName(mbs[i]) != FoldedName(mbs[j])
  }

  lemma {:induction false} ClaimRoleAt(mbs: seq<Mailbox>, role: string, target: string, i: nat)
    requires DistinctNames(mbs) && i < |mbs|
    ensures ClaimRole(mbs, role, target)[i] == if Named(mbs[i], target) then mbs[i].(role := role) else mbs[i]
  {
    hide TrimSpace, ToLower;
    if i > 0 {
      assert forall j :: 0 <= j < |mbs[1..]| ==> mbs[1..][j] == mbs[j + 1];
      ClaimRoleAt(mbs[1..], role, target, i - 1);
      assert FoldedName(mbs[0]) != FoldedName(mbs[i]);
    }
  }

  /** What one mapping does to one mailbox, when names are distinct. */
  lemma AssignRoleAt(mbs: seq<Mailbox>, role: string, target: string, i: nat)
    requires DistinctNames(mbs) && i < |mbs|
    ensures AssignRole(mbs, role, target)[i] ==
      if target == "" then mbs[i]
      else if Named(mbs[i], target) then mbs[i].(role := role)
      else if HoldsRole(mbs[i], role) then mbs[i].(role := "")
      else mbs[i]
    ensures FoldedName(AssignRole(mbs, role, target)[i]) == FoldedName(mbs[i])
  {
    hide TrimSpace, ToLower;
    if target != "" {
      assert DistinctNames(ClearRole(mbs, role, target));
      ClaimRoleAt(ClearRole(mbs, role, target), role, target, i);
    }
  }

  lemma AssignRoleDistinct(mbs: seq<Mailbox>, role: string, target: string)
    requires DistinctNames(mbs)
    ensures DistinctNames(AssignRole(mbs, role, target))
  {
    var r := AssignRole(mbs, role, target);
    hide AssignRole, FoldedName;
    forall i, j | 0 <= i < j < |r| ensures FoldedName(r[i]) != FoldedName(r[j]) {
      AssignRoleAt(mbs, role, target, i);
      AssignRoleAt(mbs, role, target, j);
    }
  }

  /** A mailbox as the server lists it. */
  datatype Listed = Listed(name: string, attributes: seq<string>)

  function Rolled(raws: seq<Listed>): (r: seq<Mailbox>)
    ensures |r| == |raws|
    ensures forall i :: 0 <= i < |raws| ==>
      r[i] == Mailbox(raws[i].name, MailboxRole(raws[i].name, raws[i].attributes), false, false)
  {
    seq(|raws|, i requires 0 <= i < |raws| =>
      Mailbox(raws[i].name, MailboxRole(raws[i].name, raws[i].attributes), false, false))
  }

  predicate TargetsExist(mbs: seq<Mailbox>, mappings: Mappings) {
    forall role :: role in SPECIAL_ROLES && Target(mappings, role) != "" ==>
      exists i :: 0 <= i < |mbs| && Named(mbs[i], Target(mappings, role))
  }

  predicate TargetsDistinct(mappings: Mappings) {
    forall r, q :: r in SPECIAL_ROLES && q in SPECIAL_ROLES && r != q ==>
      var x, y := Target(mappings, r), Target(mappings, q);
      x == "" || y == "" || !EqualFold(x, y)
  }

  /** No mailbox with a trash-like name carries the special-use attribute of another role. */
  predicate TrashNamesAreTrash(raws: seq<Listed>) {
    forall i :: 0 <= i < |raws| && RoleFromName(raws[i].name) == "trash" ==>
      RoleFromAttributes(raws[i].attributes) == "" || RoleFromAttributes(raws[i].attributes) == "trash"
  }

  lemma RoleNames()
    ensures ToLower(TrimSpace("sent")) == "sent" && ToLower(TrimSpace("archive")) == "archive"
    ensures ToLower(TrimSpace("trash")) == "trash" && ToLower(TrimSpace("junk")) == "junk"
    ensures ToLower(TrimSpace("")) == ""
    ensures TrimSpace("trash") == "trash" && TrimSpace("sent") != "" && TrimSpace("archive") != ""
      && TrimSpace("junk") != ""
    ensures ToLower("trash") == "trash"
  {
    TrimmedIsFixed("sent");
    TrimmedIsFixed("archive");
    TrimmedIsFixed("trash");
    TrimmedIsFixed("junk");
    assert ToLower("sent") == "sent" && ToLower("archive") == "archive";
    assert ToLower("trash") == "trash" && ToLower("junk") == "junk";
  }

  lemma FourRoles(mbs: seq<Mailbox>, mappings: Mappings)
    ensures var m1 := AssignRole(mbs, "sent", Target(mappings, "sent"));
            var m2 := AssignRole(m1, "archive", Target(mappings, "archive"));
            var m3 := AssignRole(m2, "trash", Target(mappings, "trash"));
            AssignRoles(mbs, mappings, SPECIAL_ROLES) == AssignRole(m3, "junk", Target(mappings, "junk"))
  {
    hide AssignRole, Target;
    var r1, r2, r3 := ["archive", "trash", "junk"], ["trash", "junk"], ["junk"];
    assert SPECIAL_ROLES[1..] == r1 && r1[1..] == r2 && r2[1..] == r3 && r3[1..] == [];
    var m1 := AssignRole(mbs, "sent", Target(mappings, "sent"));
    var m2 := AssignRole(m1, "archive", Target(mappings, "archive"));
    var m3 := AssignRole(m2, "trash", Target(mappings, "trash"));
    assert AssignRoles(m3, mappings, r3) == AssignRoles(AssignRole(m3, "junk", Target(mappings, "junk")), mappings, []);
    assert AssignRoles(m2, mappings, r2) == AssignRoles(m3, mappings, r3);
    assert AssignRoles(m1, mappings, r1) == AssignRoles(m2, mappings, r2);
  }

  /** The mailbox at `x`, trash by name, ends up without a role only if the trash role went to
      a mailbox that keeps it. */
  lemma TrashRoleSurvives(mbs: seq<Mailbox>, mappings: Mappings, x: nat)
    requires DistinctNames(mbs) && TargetsExist(mbs, mappings) && TargetsDistinct(mappings)
    requires x < |mbs| && mbs[x].role == "trash"
    ensures var out := AssignRoles(mbs, mappings, SPECIAL_ROLES);
      TrimSpace(out[x].role) != "" || exists y :: 0 <= y < |out| && out[y].role == "trash"
  {
    var sent, archive := Target(mappings, "sent"), Target(mappings, "archive");
    var trash, junk := Target(mappings, "trash"), Target(mappings, "junk");
    var m1 := AssignRole(mbs, "sent", sent);
    var m2 := AssignRole(m1, "archive", archive);
    var m3 := AssignRole(m2, "trash", trash);
    var m4 := AssignRole(m3, "junk", junk);
    FourRoles(mbs, mappings);
    AssignRoleDistinct(mbs, "sent", sent);
    AssignRoleDistinct(m1, "archive", archive);
    AssignRoleDistinct(m2, "trash", trash);
    RoleNames();
    hide AssignRole, AssignRoles, TrimSpace, ToLower, DistinctNames;
    AssignRoleAt(mbs, "sent", sent, x);
    AssignRoleAt(m1, "archive", archive, x);
    AssignRoleAt(m2, "trash", trash, x);
    AssignRoleAt(m3, "junk", junk, x);
    assert SPECIAL_ROLES[2] == "trash" && SPECIAL_ROLES[3] == "junk";
    if TrimSpace(m4[x].role) == "" {
      var y :| 0 <= y < |mbs| && Named(mbs[y], trash);
      AssignRoleAt(mbs, "sent", sent, y);
      AssignRoleAt(m1, "archive", archive, y);
      AssignRoleAt(m2, "trash", trash, y);
      AssignRoleAt(m3, "junk", junk, y);
      assert m4[y].role == "trash";
    }
  }

  /** A mailbox that may be deleted is never the one messages are moved to: with distinct
      names, existing and distinct mapping targets, and trash-like names that are listed as trash. */
  lemma DeletableIsNotTrash(raws: seq<Listed>, mappings: Mappings, i: nat)
    requires DistinctNames(Rolled(raws)) && TargetsExist(Rolled(raws), mappings) && TargetsDistinct(mappings)
    requires TrashNamesAreTrash(raws)
    requires i < |raws|
    ensures var out := AssignRoles(Rolled(raws), mappings, SPECIAL_ROLES);
      var trash := ResolveMailboxByRole(out, "trash");
      !Protected(out[i]) && trash != "" ==> !Named(out[i], trash)
  {
    var mbs := Rolled(raws);
    var out := AssignRoles(mbs, mappings, SPECIAL_ROLES);
    var trash := ResolveMailboxByRole(out, "trash");
    NamesKept(mbs, mappings);
    hide AssignRoles, SPECIAL_ROLES, ResolveMailboxByRole, TrimSpace, RoleFromName, RoleFromAttributes, TargetsExist,
        TargetsDistinct, DistinctNames;
    if trash != "" && Named(out[i], trash) {
      var x := TrashFound(out);
      SameName(out, i, x);
      if TrimSpace(out[x].role) == "" {
        assert raws[x].name == out[x].name && mbs[x].role == "trash";
        TrashRoleSurvives(mbs, mappings, x);
      }
    }
  }

  /** Messages go to a mailbox with a role, or, when no mailbox has the role of trash, to one
      with a trash-like name. */
  lemma TrashFound(out: seq<Mailbox>) returns (x: nat)
    requires ResolveMailboxByRole(out, "trash") != ""
    ensures x < |out| && TrimSpace(out[x].name) == ResolveMailboxByRole(out, "trash")
    ensures TrimSpace(out[x].role) != ""
      || (RoleFromName(out[x].name) == "trash" && forall y :: 0 <= y < |out| ==> out[y].role != "trash")
  {
    RoleNames();
    FirstByRoleFound(out, "trash");
    FirstByNameFound(out, "trash");
    hide TrimSpace, RoleFromName;
    if FirstByRole(out, "trash").Some? {
      x :| 0 <= x < |out| && EqualFold(TrimSpace(out[x].role), "trash")
        && TrimSpace(out[x].name) == FirstByRole(out, "trash").value;
      assert |ToLower("trash")| == 5 && ToLower("") == "";
    } else {
      x :| 0 <= x < |out| && RoleFromName(out[x].name) == "trash"
        && TrimSpace(out[x].name) == FirstByName(out, "trash").value;
    }
  }

  lemma SameName(mbs: seq<Mailbox>, i: nat, x: nat)
    requires DistinctNames(mbs) && i < |mbs| && x < |mbs| && Named(mbs[i], TrimSpace(mbs[x].name))
    ensures i == x
  {
  }

  lemma NamesKept(mbs: seq<Mailbox>, mappings: Mappings)
    requires DistinctNames(mbs)
    ensures var out := AssignRoles(mbs, mappings, SPECIAL_ROLES);
      DistinctNames(out) && forall i :: 0 <= i < |out| ==> out[i].name == mbs[i].name
  {
    FourRoles(mbs, mappings);
    var m1 := AssignRole(mbs, "sent", Target(mappings, "sent"));
    var m2 := AssignRole(m1, "archive", Target(mappings, "archive"));
    var m3 := AssignRole(m2, "trash", Target(mappings, "trash"));
    AssignRoleDistinct(mbs, "sent", Target(mappings, "sent"));
    AssignRoleDistinct(m1, "archive", Target(mappings, "archive"));
    AssignRoleDistinct(m2, "trash", Target(mappings, "trash"));
    AssignRoleDistinct(m3, "junk", Target(mappings, "junk"));
    hide AssignRole, AssignRoles, Target, DistinctNames, Named, HoldsRole;
    forall i | 0 <= i < |mbs| ensures AssignRole(m3, "junk", Target(mappings, "junk"))[i].name == mbs[i].name {
      AssignRoleAt(mbs, "sent", Target(mappings, "sent"), i);
      AssignRoleAt(m1, "archive", Target(mappings, "archive"), i);
      AssignRoleAt(m2, "trash", Target(mappings, "trash"), i);
      AssignRoleAt(m3, "junk", Target(mappings, "junk"), i);
    }
  }
}
