/** How mailboxes get their roles, by tables of words, and which mailbox a role resolves to
    (internal/mail/mailboxes.go, internal/api/router_mail_special.go). */
module RoleLaws {
  import opened Text
  import opened Mailboxes
  import opened SpecialMailboxes

  // ----- names -----

  /** Words in a name and the roles they stand for, the first that occurs deciding. */
  const NAME_WORDS: seq<(string, string)> := [("draft", "drafts"), ("sent", "sent"), ("trash", "trash"),
    ("deleted", "trash"), ("archive", "archive"), ("all mail", "archive"), ("junk", "junk"), ("spam", "junk")]

  function FirstWord(key: string, words: seq<(string, string)>): string {
    if words == [] then ""
    else if Contains(key, words[0].0) then words[0].1
    else FirstWord(key, words[1..])
  }

  lemma LongNames(key: string)
    ensures key == "drafts" ==> Contains(key, "draft")
    ensures key == "sent" || key == "sent messages" ==> Contains(key, "sent")
    ensures key == "trash" ==> Contains(key, "trash")
    ensures key == "deleted messages" ==> Contains(key, "deleted")
    ensures key == "archive" ==> Contains(key, "archive")
    ensures key == "junk" ==> Contains(key, "junk")
    ensures key == "spam" ==> Contains(key, "spam")
  {
    assert "draft" <= "drafts" && "sent" <= "sent messages" && "deleted" <= "deleted messages";
  }

  lemma Unrolled(key: string)
    ensures FirstWord(key, NAME_WORDS) ==
      if Contains(key, "draft") then "drafts" else if Contains(key, "sent") then "sent"
      else if Contains(key, "trash") || Contains(key, "deleted") then "trash"
      else if Contains(key, "archive") || Contains(key, "all mail") then "archive"
      else if Contains(key, "junk") || Contains(key, "spam") then "junk" else ""
  {
    hide Contains, FirstWord;
    var w := NAME_WORDS;
    NoWords(key);
    assert w[8..] == [];
    FirstWordStep(key, w[7..]);
    FirstWordStep(key, w[6..]);
    FirstWordStep(key, w[5..]);
    FirstWordStep(key, w[4..]);
    FirstWordStep(key, w[3..]);
    FirstWordStep(key, w[2..]);
    FirstWordStep(key, w[1..]);
    FirstWordStep(key, w);
    assert w[7..][1..] == w[8..] && w[6..][1..] == w[7..] && w[5..][1..] == w[6..] && w[4..][1..] == w[5..];
    assert w[3..][1..] == w[4..] && w[2..][1..] == w[3..] && w[1..][1..] == w[2..];
  }

  lemma NoWords(key: string)
    ensures FirstWord(key, []) == ""
  {
  }

  lemma FirstWordStep(key: string, words: seq<(string, string)>)
    requires words != []
    ensures FirstWord(key, words) == if Contains(key, words[0].0) then words[0].1 else FirstWord(key, words[1..])
  {
    hide Contains;
  }

  /** A name says inbox when it ends in that, and otherwise what the first of the words in it says. */
  lemma NamesByWords(name: string)
    ensures var key := ToLower(TrimSpace(name));
      RoleFromName(name) ==
        if key == "inbox" || HasSuffix(key, "/inbox") then "inbox" else FirstWord(key, NAME_WORDS)
  {
    var key := ToLower(TrimSpace(name));
    LongNames(key);
    Unrolled(key);
    hide Contains, FirstWord, TrimSpace, NAME_WORDS;
  }

  // ----- attributes -----

  const ATTRIBUTE_ROLES: map<string, string> := map["\\inbox" := "inbox", "\\sent" := "sent", "\\trash" := "trash",
    "\\archive" := "archive", "\\all" := "archive", "\\junk" := "junk", "\\spam" := "junk", "\\drafts" := "drafts"]

  /** The role of one attribute; none for the others a server may give. */
  function AttributeRole(a: string): string {
    var key := ToLower(TrimSpace(a));
    if key in ATTRIBUTE_ROLES then ATTRIBUTE_ROLES[key] else ""
  }

  /** The first attribute with a role decides. */
  lemma {:induction false} AttributesByTable(attributes: seq<string>)
    ensures RoleFromAttributes(attributes) ==
      if attributes == [] then ""
      else if AttributeRole(attributes[0]) != "" then AttributeRole(attributes[0])
      else RoleFromAttributes(attributes[1..])
  {
    hide TrimSpace;
  }

  /** Attributes come before the name. */
  lemma RoleOfMailbox(name: string, attributes: seq<string>, role: string)
    ensures RoleFromAttributes([]) == "" && MailboxRole(name, []) == RoleFromName(name)
    ensures AttributeRole(role) != "" ==> MailboxRole(name, [role] + attributes) == AttributeRole(role)
    ensures AttributeRole(role) == "" ==> MailboxRole(name, [role] + attributes) == MailboxRole(name, attributes)
  {
    AttributesByTable([role] + attributes);
    assert ([role] + attributes)[1..] == attributes;
    hide AttributeRole, RoleFromName;
    assert RoleFromAttributes([]) == "";
  }

  // ----- which mailbox -----

  predicate FirstIndex(mailboxes: seq<Mailbox>, p: Mailbox -> bool, i: nat) {
    i < |mailboxes| && p(mailboxes[i]) && forall j :: 0 <= j < i ==> !p(mailboxes[j])
  }

  function HasRole(role: string): Mailbox -> bool {
    (mb: Mailbox) => EqualFold(TrimSpace(mb.role), role)
  }

  function SoundsLike(role: string): Mailbox -> bool {
    (mb: Mailbox) => RoleFromName(mb.name) == role
  }

  lemma {:induction false} FirstByRoleMeans(mailboxes: seq<Mailbox>, role: string, i: nat)
    requires FirstIndex(mailboxes, HasRole(role), i)
    ensures FirstByRole(mailboxes, role) == Some(TrimSpace(mailboxes[i].name))
  {
    hide TrimSpace;
    if i > 0 {
      assert !HasRole(role)(mailboxes[0]);
      assert forall j :: 0 <= j < |mailboxes| - 1 ==> mailboxes[1..][j] == mailboxes[j + 1];
      FirstByRoleMeans(mailboxes[1..], role, i - 1);
    }
  }

  lemma {:induction false} NoneByRole(mailboxes: seq<Mailbox>, role: string)
    requires forall j :: 0 <= j < |mailboxes| ==> !HasRole(role)(mailboxes[j])
    ensures FirstByRole(mailboxes, role) == None
  {
    hide TrimSpace;
    if mailboxes != [] {
      assert !HasRole(role)(mailboxes[0]);
      NoneByRole(mailboxes[1..], role);
    }
  }

  lemma {:induction false} FirstByNameMeans(mailboxes: seq<Mailbox>, role: string, i: nat)
    requires FirstIndex(mailboxes, SoundsLike(role), i)
    ensures FirstByName(mailboxes, role) == Some(TrimSpace(mailboxes[i].name))
  {
    hide TrimSpace, RoleFromName;
    if i > 0 {
      assert !SoundsLike(role)(mailboxes[0]);
      assert forall j :: 0 <= j < |mailboxes| - 1 ==> mailboxes[1..][j] == mailboxes[j + 1];
      FirstByNameMeans(mailboxes[1..], role, i - 1);
    }
  }

  lemma {:induction false} NoneByName(mailboxes: seq<Mailbox>, role: string)
    requires forall j :: 0 <= j < |mailboxes| ==> !SoundsLike(role)(mailboxes[j])
    ensures FirstByName(mailboxes, role) == None
  {
    hide TrimSpace, RoleFromName;
    if mailboxes != [] {
      assert !SoundsLike(role)(mailboxes[0]);
      NoneByName(mailboxes[1..], role);
    }
  }

  predicate Absent(mailboxes: seq<Mailbox>, p: Mailbox -> bool) {
    forall j :: 0 <= j < |mailboxes| ==> !p(mailboxes[j])
  }

  /** A role resolves to the first mailbox that has it, for want of one to the first whose name sounds like it, and for
      want of that to nothing. */
  lemma ResolvesExactly(mailboxes: seq<Mailbox>, asked: string, role: string)
    requires role != "" && Trimmed(role) && ToLower(role) == role && PadsFold(asked, role)
    ensures var name := ResolveMailboxByRole(mailboxes, asked);
      && (forall i: nat :: FirstIndex(mailboxes, HasRole(role), i) ==> name == TrimSpace(mailboxes[i].name))
      && (forall i: nat :: Absent(mailboxes, HasRole(role)) && FirstIndex(mailboxes, SoundsLike(role), i) ==>
            name == TrimSpace(mailboxes[i].name))
      && (Absent(mailboxes, HasRole(role)) && Absent(mailboxes, SoundsLike(role)) ==> name == "")
  {
    PadsFoldExact(asked, role);
    hide TrimSpace, RoleFromName, PadsFold, HasRole, SoundsLike;
    forall i: nat | FirstIndex(mailboxes, HasRole(role), i)
      ensures ResolveMailboxByRole(mailboxes, asked) == TrimSpace(mailboxes[i].name)
    {
      FirstByRoleMeans(mailboxes, role, i);
    }
    if Absent(mailboxes, HasRole(role)) {
      NoneByRole(mailboxes, role);
      forall i: nat | FirstIndex(mailboxes, SoundsLike(role), i)
        ensures ResolveMailboxByRole(mailboxes, asked) == TrimSpace(mailboxes[i].name)
      {
        FirstByNameMeans(mailboxes, role, i);
      }
      if Absent(mailboxes, SoundsLike(role)) {
        NoneByName(mailboxes, role);
      }
    }
  }

  // ----- special mailboxes -----

  /** A mailbox is protected exactly when it has a role or is the drafts folder of the application, up to case and outer
      white space. */
  lemma ProtectedExactly(mb: Mailbox)
    ensures Protected(mb) <==> !AllSpace(mb.role) || PadsFold(mb.name, "__despatch_app_drafts__")
  {
    assert ToLower(APP_DRAFTS) == APP_DRAFTS && Trimmed(APP_DRAFTS);
    PadsFoldExact(mb.name, APP_DRAFTS);
    var i, j := TrimSpaceSplits(mb.role);
    assert mb.role == mb.role[..i] + TrimSpace(mb.role) + mb.role[j..];
    if AllSpace(mb.role) {
      AllSpaceTrims(mb.role);
    }
    hide TrimSpace, PadsFold;
  }

  /** A choice names a mailbox up to case and outer white space on both sides. */
  lemma ChoiceNames(mb: Mailbox, mappings: Mappings, role: string, chosen: string)
    requires role in mappings && Pads(mappings[role], chosen) && Trimmed(chosen)
    ensures Target(mappings, role) == chosen
    ensures Named(mb, Target(mappings, role)) <==> PadsFold(mb.name, ToLower(chosen))
  {
    PadsTrim(mappings[role], chosen);
    LowerKeepsTrimmed(chosen);
    assert ToLower(ToLower(chosen)) == ToLower(chosen);
    PadsFoldExact(mb.name, ToLower(chosen));
    hide TrimSpace, PadsFold, Pads;
  }
}
