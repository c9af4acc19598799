/** When a mailbox that may be deleted is the one its messages would be moved to
    (internal/api/router_mail_special.go, internal/mail/mailboxes.go). */
module TrashRoles {
  import opened Text
  import opened Mailboxes
  import opened SpecialMailboxes

  // ----- the role each mailbox ends with -----

  /** The user chose this mailbox for the role. */
  predicate ChosenFor(mb: Mailbox, mappings: Mappings, role: string) {
    Target(mappings, role) != "" && Named(mb, Target(mappings, role))
  }

  predicate Unchosen(mb: Mailbox, mappings: Mappings) {
    forall k :: 0 <= k < |SPECIAL_ROLES| ==> !ChosenFor(mb, mappings, SPECIAL_ROLES[k])
  }

  /** The role was given away to a name that is not this mailbox's, and no other came instead. */
  predicate Stripped(mb: Mailbox, mappings: Mappings) {
    Unchosen(mb, mappings) && mb.role in SPECIAL_ROLES && Target(mappings, mb.role) != ""
  }

  /** The last choice wins; without one the role stays unless it was given away. */
  function FinalRole(mb: Mailbox, mappings: Mappings): string {
    if ChosenFor(mb, mappings, "junk") then "junk"
    else if ChosenFor(mb, mappings, "trash") then "trash"
    else if ChosenFor(mb, mappings, "archive") then "archive"
    else if ChosenFor(mb, mappings, "sent") then "sent"
    else if mb.role in SPECIAL_ROLES && Target(mappings, mb.role) != "" then ""
    else mb.role
  }

  const KNOWN_ROLES := ["", "inbox", "drafts", "sent", "archive", "trash", "junk"]

  lemma KnownRoles(role: string)
    requires role in KNOWN_ROLES
    ensures TrimSpace(role) == role && ToLower(role) == role
  {
    assert PlainRole(role);
    hide KNOWN_ROLES;
    TrimmedIsFixed(role);
  }

  predicate PlainRole(role: string) {
    forall i :: 0 <= i < |role| ==> 'a' <= role[i] <= 'z'
  }

  /** What one choice makes of a role. */
  function RoleAfter(mb: Mailbox, mappings: Mappings, role: string, r: string): string {
    if ChosenFor(mb, mappings, role) then role
    else if r == role && Target(mappings, role) != "" then ""
    else r
  }

  lemma AssignOne(mbs: seq<Mailbox>, mappings: Mappings, role: string, i: nat, mb: Mailbox, r: string)
    requires DistinctNames(mbs) && i < |mbs| && mbs[i] == mb.(role := r) && r in KNOWN_ROLES && role in KNOWN_ROLES
    ensures var next := AssignRole(mbs, role, Target(mappings, role));
      && DistinctNames(next) && next[i] == mb.(role := RoleAfter(mb, mappings, role, r))
      && RoleAfter(mb, mappings, role, r) in KNOWN_ROLES
  {
    KnownRoles(r);
    assert "" == KNOWN_ROLES[0];
    hide AssignRole, DistinctNames, TrimSpace, ToLower, Target, KNOWN_ROLES;
    AssignRoleDistinct(mbs, role, Target(mappings, role));
    AssignRoleAt(mbs, role, Target(mappings, role), i);
  }

  lemma FourChoices(mb: Mailbox, mappings: Mappings)
    ensures var r1 := RoleAfter(mb, mappings, "sent", mb.role);
      var r2 := RoleAfter(mb, mappings, "archive", r1);
      var r3 := RoleAfter(mb, mappings, "trash", r2);
      RoleAfter(mb, mappings, "junk", r3) == FinalRole(mb, mappings)
  {
    hide ChosenFor, Target;
    SpecialRoles(mb.role);
    hide SPECIAL_ROLES;
  }

  lemma SpecialRoles(role: string)
    ensures role in SPECIAL_ROLES <==> role == "sent" || role == "archive" || role == "trash" || role == "junk"
    ensures "sent" in KNOWN_ROLES && "archive" in KNOWN_ROLES && "trash" in KNOWN_ROLES && "junk" in KNOWN_ROLES
  {
    assert SPECIAL_ROLES[0] == "sent" && SPECIAL_ROLES[1] == "archive" && SPECIAL_ROLES[2] == "trash"
      && SPECIAL_ROLES[3] == "junk";
    assert KNOWN_ROLES[3] == "sent" && KNOWN_ROLES[4] == "archive" && KNOWN_ROLES[5] == "trash"
      && KNOWN_ROLES[6] == "junk";
  }

  /** The role every mailbox ends with, in closed form. */
  lemma FinalRoleAt(mbs: seq<Mailbox>, mappings: Mappings, i: nat)
    requires DistinctNames(mbs) && i < |mbs| && mbs[i].role in KNOWN_ROLES
    ensures AssignRoles(mbs, mappings, SPECIAL_ROLES)[i] == mbs[i].(role := FinalRole(mbs[i], mappings))
  {
    hide AssignRole, AssignRoles, DistinctNames, Target, FinalRole, RoleAfter, KNOWN_ROLES;
    var mb := mbs[i];
    SpecialRoles(mb.role);
    FourRoles(mbs, mappings);
    FourChoices(mb, mappings);
    var m1 := AssignRole(mbs, "sent", Target(mappings, "sent"));
    var m2 := AssignRole(m1, "archive", Target(mappings, "archive"));
    var m3 := AssignRole(m2, "trash", Target(mappings, "trash"));
    var r1 := RoleAfter(mb, mappings, "sent", mb.role);
    var r2 := RoleAfter(mb, mappings, "archive", r1);
    var r3 := RoleAfter(mb, mappings, "trash", r2);
    AssignOne(mbs, mappings, "sent", i, mb, mb.role);
    AssignOne(m1, mappings, "archive", i, mb, r1);
    AssignOne(m2, mappings, "trash", i, mb, r2);
    AssignOne(m3, mappings, "junk", i, mb, r3);
  }

  lemma {:induction false} AttributesKnown(attributes: seq<string>)
    ensures RoleFromAttributes(attributes) in KNOWN_ROLES
  {
    assert KNOWN_ROLES[0] == "" && KNOWN_ROLES[1] == "inbox" && KNOWN_ROLES[2] == "drafts";
    SpecialRoles("");
    hide KNOWN_ROLES;
    if attributes != [] {
      AttributesKnown(attributes[1..]);
    }
  }

  lemma RolledKnown(name: string, attributes: seq<string>)
    ensures MailboxRole(name, attributes) in KNOWN_ROLES
    ensures RoleFromName(name) == "trash" ==> MailboxRole(name, attributes) != ""
  {
    assert KNOWN_ROLES[0] == "" && KNOWN_ROLES[1] == "inbox" && KNOWN_ROLES[2] == "drafts";
    SpecialRoles("");
    AttributesKnown(attributes);
    hide KNOWN_ROLES, RoleFromAttributes, Contains, HasSuffix;
  }

  // ----- the trash that may be deleted -----

  /** The mailbox ends with the role of trash. */
  predicate EndsAsTrash(mb: Mailbox, mappings: Mappings) {
    || (ChosenFor(mb, mappings, "trash") && !ChosenFor(mb, mappings, "junk"))
    || (Unchosen(mb, mappings) && mb.role == "trash" && Target(mappings, "trash") == "")
  }

  /** The first mailbox with a trash-like name. */
  predicate FirstTrashLike(mbs: seq<Mailbox>, x: nat) {
    x < |mbs| && RoleFromName(mbs[x].name) == "trash" && forall y :: 0 <= y < x ==> RoleFromName(mbs[y].name) != "trash"
  }

  predicate NoTrash(mbs: seq<Mailbox>, mappings: Mappings) {
    forall y :: 0 <= y < |mbs| ==> !EndsAsTrash(mbs[y], mappings)
  }

  /** No mailbox ends as the trash, and the one taken for it by its name lost its own role. */
  predicate TrashUnguarded(mbs: seq<Mailbox>, mappings: Mappings, x: nat) {
    NoTrash(mbs, mappings) && FirstTrashLike(mbs, x) && Stripped(mbs[x], mappings)
  }

  /** A mailbox that may be deleted, and into which its messages would be moved. */
  predicate DeletableTrash(raws: seq<Listed>, mappings: Mappings, i: nat)
    requires i < |raws|
  {
    var out := AssignRoles(Rolled(raws), mappings, SPECIAL_ROLES);
    var trash := ResolveMailboxByRole(out, "trash");
    !Protected(out[i]) && trash != "" && Named(out[i], trash)
  }

  lemma FinalRoleMeans(mb: Mailbox, mappings: Mappings)
    requires mb.role in KNOWN_ROLES
    ensures FinalRole(mb, mappings) in KNOWN_ROLES
    ensures FinalRole(mb, mappings) == "trash" <==> EndsAsTrash(mb, mappings)
    ensures mb.role != "" ==> (FinalRole(mb, mappings) == "" <==> Stripped(mb, mappings))
  {
    SpecialRoles(mb.role);
    UnchosenMeans(mb, mappings);
    assert KNOWN_ROLES[0] == "";
    hide ChosenFor, Target, SPECIAL_ROLES, KNOWN_ROLES, Unchosen;
  }

  lemma UnchosenMeans(mb: Mailbox, mappings: Mappings)
    ensures Unchosen(mb, mappings) <==>
      && !ChosenFor(mb, mappings, "sent") && !ChosenFor(mb, mappings, "archive")
      && !ChosenFor(mb, mappings, "trash") && !ChosenFor(mb, mappings, "junk")
  {
    hide ChosenFor;
    assert SPECIAL_ROLES[0] == "sent" && SPECIAL_ROLES[1] == "archive" && SPECIAL_ROLES[2] == "trash"
      && SPECIAL_ROLES[3] == "junk";
  }

  lemma {:induction false} FirstNameFound(mbs: seq<Mailbox>) returns (x: nat)
    ensures FirstByName(mbs, "trash").Some? ==>
      FirstTrashLike(mbs, x) && FirstByName(mbs, "trash").value == TrimSpace(mbs[x].name)
    ensures FirstByName(mbs, "trash").None? ==> forall y :: 0 <= y < |mbs| ==> RoleFromName(mbs[y].name) != "trash"
  {
    hide TrimSpace, RoleFromName;
    x := 0;
    if mbs != [] && RoleFromName(mbs[0].name) != "trash" {
      var y := FirstNameFound(mbs[1..]);
      x := y + 1;
      assert forall k :: 0 <= k < |mbs[1..]| ==> mbs[1..][k] == mbs[k + 1];
    }
  }

  lemma FirstIsUnique(mbs: seq<Mailbox>, x: nat, y: nat)
    requires FirstTrashLike(mbs, x) && FirstTrashLike(mbs, y)
    ensures x == y
  {
  }

  lemma {:induction false} ContainsLater(s: string, p: string, k: nat)
    requires k <= |s| && p <= s[k..]
    ensures Text.Contains(s, p)
  {
    if k > 0 {
      assert s[1..][k - 1..] == s[k..];
      ContainsLater(s[1..], p, k - 1);
    }
  }

  predicate NoCapitals(s: string) {
    forall i :: 0 <= i < |s| ==> !('A' <= s[i] <= 'Z')
  }

  lemma LowerFixed(s: string)
    requires NoCapitals(s)
    ensures ToLower(s) == s
  {
  }

  lemma DraftsName()
    ensures NoCapitals(APP_DRAFTS) && |APP_DRAFTS| > 15 && "draft" <= APP_DRAFTS[15..]
  {
    assert APP_DRAFTS == "__despatch_app_" + "drafts__";
    assert NoCapitals("__despatch_app_") && NoCapitals("drafts__");
    assert ("__despatch_app_" + "drafts__")[15..] == "drafts__";
  }

  /** The mailbox of the application's drafts is not taken for the trash. */
  lemma DraftsAreNoTrash(name: string)
    requires EqualFold(TrimSpace(name), APP_DRAFTS)
    ensures RoleFromName(name) != "trash"
  {
    hide APP_DRAFTS, TrimSpace, Text.Contains, HasSuffix, NoCapitals;
    DraftsName();
    LowerFixed(APP_DRAFTS);
    ContainsLater(APP_DRAFTS, "draft", 15);
  }

  lemma TrashLikeNotBlank(name: string)
    requires RoleFromName(name) == "trash"
    ensures TrimSpace(name) != ""
  {
    assert TrimSpace(name) == "" ==> ToLower(TrimSpace(name)) == "";
    assert !Text.Contains("", "trash") && !Text.Contains("", "deleted");
  }

  /** The final roles, and that names stay. */
  lemma FinalRoles(raws: seq<Listed>, mappings: Mappings)
    requires DistinctNames(Rolled(raws))
    ensures var mbs := Rolled(raws); var out := AssignRoles(mbs, mappings, SPECIAL_ROLES);
      && DistinctNames(out)
      && (forall i :: 0 <= i < |mbs| ==> out[i] == mbs[i].(role := FinalRole(mbs[i], mappings)))
      && (forall i :: 0 <= i < |mbs| ==> mbs[i].role in KNOWN_ROLES)
  {
    var mbs := Rolled(raws);
    hide AssignRoles, DistinctNames, FinalRole, KNOWN_ROLES, MailboxRole, SPECIAL_ROLES;
    NamesKept(mbs, mappings);
    forall i | 0 <= i < |mbs|
      ensures AssignRoles(mbs, mappings, SPECIAL_ROLES)[i] == mbs[i].(role := FinalRole(mbs[i], mappings))
        && mbs[i].role in KNOWN_ROLES
    {
      RolledKnown(raws[i].name, raws[i].attributes);
      FinalRoleAt(mbs, mappings, i);
    }
  }

  /** Where the trash is found: at the mailbox that ends with the role, or else at the first
      trash-like name. */
  lemma TrashIsAt(mbs: seq<Mailbox>, mappings: Mappings, out: seq<Mailbox>) returns (x: nat)
    requires |out| == |mbs| && forall i :: 0 <= i < |mbs| ==> mbs[i].role in KNOWN_ROLES
    requires forall i :: 0 <= i < |mbs| ==> out[i] == mbs[i].(role := FinalRole(mbs[i], mappings))
    ensures ResolveMailboxByRole(out, "trash") != "" ==>
      (x < |out| && TrimSpace(out[x].name) == ResolveMailboxByRole(out, "trash")
       && (EndsAsTrash(mbs[x], mappings) || (FirstTrashLike(mbs, x) && NoTrash(mbs, mappings))))
    ensures NoTrash(mbs, mappings) && (exists y :: FirstTrashLike(mbs, y)) ==>
      x < |out| && FirstTrashLike(mbs, x) && ResolveMailboxByRole(out, "trash") == TrimSpace(out[x].name) != ""
  {
    RoleNames();
    FirstByRoleFound(out, "trash");
    forall i | 0 <= i < |mbs| ensures EqualFold(TrimSpace(out[i].role), "trash") <==> EndsAsTrash(mbs[i], mappings) {
      FinalRoleMeans(mbs[i], mappings);
      KnownRoles(out[i].role);
    }
    var y := FirstNameFound(out);
    if y < |out| && RoleFromName(out[y].name) == "trash" {
      TrashLikeNotBlank(out[y].name);
    }
    hide TrimSpace, RoleFromName, EndsAsTrash, KNOWN_ROLES, FinalRole, ToLower;
    x := y;
    if FirstByRole(out, "trash").Some? {
      x :| 0 <= x < |out| && EqualFold(TrimSpace(out[x].role), "trash")
        && TrimSpace(out[x].name) == FirstByRole(out, "trash").value;
    }
  }

  /** A mailbox that may be deleted is the one its messages go to if and only if it is the first
      with a trash-like name, its role was given away, and no mailbox ends as the trash. */
  lemma DeletableTrashExactly(raws: seq<Listed>, mappings: Mappings, i: nat)
    requires DistinctNames(Rolled(raws)) && i < |raws|
    ensures DeletableTrash(raws, mappings, i) <==> TrashUnguarded(Rolled(raws), mappings, i)
  {
    var mbs := Rolled(raws);
    var out := AssignRoles(mbs, mappings, SPECIAL_ROLES);
    FinalRoles(raws, mappings);
    var x := TrashIsAt(mbs, mappings, out);
    FinalRoleMeans(mbs[i], mappings);
    KnownRoles(out[i].role);
    RolledKnown(raws[i].name, raws[i].attributes);
    hide AssignRoles, SPECIAL_ROLES, TrimSpace, ToLower, RoleFromName, EndsAsTrash, FinalRole, KNOWN_ROLES, MailboxRole,
      ResolveMailboxByRole, DistinctNames, Stripped, APP_DRAFTS;
    if DeletableTrash(raws, mappings, i) {
      SameName(out, i, x);
    }
    if TrashUnguarded(mbs, mappings, i) {
      FirstIsUnique(mbs, i, x);
      NotDrafts(out[i].name);
    }
  }

  lemma NotDrafts(name: string)
    requires RoleFromName(name) == "trash"
    ensures !EqualFold(TrimSpace(name), APP_DRAFTS)
  {
    if EqualFold(TrimSpace(name), APP_DRAFTS) {
      DraftsAreNoTrash(name);
    }
  }

  // ----- two inputs where it is -----

  lemma {:induction false} TooLong(s: string, p: string)
    requires |p| > |s|
    ensures !Text.Contains(s, p)
  {
    if s != "" {
      TooLong(s[1..], p);
    }
  }

  lemma TrashName()
    ensures RoleFromName("Trash") == "trash" && TrimSpace("Trash") == "Trash" && ToLower("Trash") == "trash"
  {
    TrimmedIsFixed("Trash");
    assert ToLower("Trash") == "trash";
    var key := "trash";
    assert key[1..] == "rash" && key[0] == 't';
    assert !Text.Contains(key, "draft") by { TooLong("rash", "draft"); }
    assert !Text.Contains(key, "sent") by {
      assert "rash"[1..] == "ash";
      TooLong("ash", "sent");
      assert !Text.Contains("rash", "sent");
    }
    hide Text.Contains, TrimSpace;
  }

  lemma AttributeRoles()
    ensures RoleFromAttributes(["\\Trash"]) == "trash" && RoleFromAttributes(["\\Junk"]) == "junk"
      && RoleFromAttributes([]) == ""
  {
    TrimmedIsFixed("\\Trash");
    TrimmedIsFixed("\\Junk");
    hide TrimSpace;
    assert ToLower("\\Trash") == "\\trash" && ToLower("\\Junk") == "\\junk";
  }

  /** Only one role was chosen a mailbox for. */
  predicate OnlyChoice(mappings: Mappings, role: string, target: string) {
    && target != "" && Target(mappings, role) == target
    && forall k :: 0 <= k < |SPECIAL_ROLES| && SPECIAL_ROLES[k] != role ==> Target(mappings, SPECIAL_ROLES[k]) == ""
  }

  lemma OnlyChoiceMeans(mb: Mailbox, mappings: Mappings, role: string, target: string)
    requires OnlyChoice(mappings, role, target) && role in SPECIAL_ROLES
    ensures target != "" && (Unchosen(mb, mappings) <==> !Named(mb, target))
    ensures ChosenFor(mb, mappings, "trash") ==> role == "trash" && Named(mb, target)
    ensures Target(mappings, "trash") == if role == "trash" then target else ""
    ensures Named(mb, target) && role == "junk" ==> ChosenFor(mb, mappings, "junk")
  {
    assert SPECIAL_ROLES[2] == "trash";
    hide Named, Target;
    var k :| 0 <= k < |SPECIAL_ROLES| && SPECIAL_ROLES[k] == role;
    hide SPECIAL_ROLES;
  }

  /** The trash-like mailbox has the role of the only choice, which names another mailbox or none:
      the trash is unguarded if no other mailbox has its role. */
  lemma OnlyChoiceUnguards(mbs: seq<Mailbox>, mappings: Mappings, role: string, target: string, x: nat)
    requires OnlyChoice(mappings, role, target) && role in SPECIAL_ROLES
    requires FirstTrashLike(mbs, x) && mbs[x].role == role && !Named(mbs[x], target)
    requires forall y :: 0 <= y < |mbs| ==> if role == "trash" then !Named(mbs[y], target) else mbs[y].role != "trash"
    ensures TrashUnguarded(mbs, mappings, x)
  {
    assert x < |mbs|;
    hide OnlyChoice, Named, Target, FirstTrashLike, SPECIAL_ROLES, ChosenFor, Unchosen;
    OnlyChoiceMeans(mbs[x], mappings, role, target);
    forall y | 0 <= y < |mbs| ensures !EndsAsTrash(mbs[y], mappings) {
      OnlyChoiceMeans(mbs[y], mappings, role, target);
    }
    assert Target(mappings, role) != "" by { OnlyTarget(mappings, role, target); }
  }

  lemma OnlyTarget(mappings: Mappings, role: string, target: string)
    requires OnlyChoice(mappings, role, target)
    ensures Target(mappings, role) != ""
  {
  }

  const BIN: Mappings := map["trash" := "Bin"]
  const SPAM: Mappings := map["junk" := "Spam"]

  lemma Choices()
    ensures OnlyChoice(BIN, "trash", "Bin") && OnlyChoice(SPAM, "junk", "Spam")
    ensures "trash" in SPECIAL_ROLES && "junk" in SPECIAL_ROLES
  {
    SpecialRoles("trash");
    SpecialRoles("junk");
    TrimmedIsFixed("Bin");
    TrimmedIsFixed("Spam");
    hide TrimSpace;
  }

  const STALE: seq<Listed> := [Listed("Trash", ["\\Trash"])]
  const RELISTED: seq<Listed> := [Listed("Trash", ["\\Junk"]), Listed("Spam", [])]

  lemma ExampleNames(mb: Mailbox)
    requires mb.name == "Trash"
    ensures !Named(mb, "Bin") && !Named(mb, "Spam") && FoldedName(mb) != ToLower(TrimSpace("Spam"))
  {
    TrimmedIsFixed("Trash");
    TrimmedIsFixed("Spam");
    hide TrimSpace;
    assert |ToLower("Trash")| == 5 && |ToLower("Bin")| == 3 && |ToLower("Spam")| == 4;
  }

  lemma SpamRole()
    ensures MailboxRole("Spam", []) != "trash"
  {
    TrimmedIsFixed("Spam");
    assert ToLower("Spam") == "spam";
    TooLong("spam", "trash");
    TooLong("spam", "deleted");
    hide Text.Contains, TrimSpace;
  }

  /** A choice of trash that names no mailbox: the mailbox listed as trash loses its role, may be
      deleted, and is still where its messages go. */
  lemma StaleChoice()
    ensures DeletableTrash(STALE, BIN, 0)
  {
    var mbs := Rolled(STALE);
    TrashName();
    AttributeRoles();
    hide TrimSpace, RoleFromName, RoleFromAttributes, OnlyChoice, Named, SPECIAL_ROLES, BIN;
    Choices();
    ExampleNames(mbs[0]);
    OnlyChoiceUnguards(mbs, BIN, "trash", "Bin", 0);
    DeletableTrashExactly(STALE, BIN, 0);
  }

  /** A mailbox named like the trash but listed as junk, and another chosen for junk. */
  lemma RelistedTrash()
    ensures DeletableTrash(RELISTED, SPAM, 0)
  {
    var mbs := Rolled(RELISTED);
    TrashName();
    AttributeRoles();
    SpamRole();
    hide TrimSpace, RoleFromName, RoleFromAttributes, OnlyChoice, Named, SPECIAL_ROLES, SPAM;
    Choices();
    ExampleNames(mbs[0]);
    OnlyChoiceUnguards(mbs, SPAM, "junk", "Spam", 0);
    DeletableTrashExactly(RELISTED, SPAM, 0);
  }
}
