/** Mailbox roles: internal/mail/mailboxes.go and normalizeAggregateMailboxRole. */
module Mailboxes {
  import opened Text

  datatype Mailbox = Mailbox(name: string, role: string, canRename: bool, canDelete: bool)

  /** The role a mailbox name suggests; the first matching row of the table wins. */
  function RoleFromName(name: string): string {
    var key := ToLower(TrimSpace(name));
    if key == "inbox" || HasSuffix(key, "/inbox") then "inbox"
    else if key == "drafts" || Contains(key, "draft") then "drafts"
    else if key == "sent" || key == "sent messages" || Contains(key, "sent") then "sent"
    else if key == "trash" || key == "deleted messages" || Contains(key, "trash") || Contains(key, "deleted")
      then "trash"
    else if key == "archive" || Contains(key, "archive") || Contains(key, "all mail") then "archive"
    else if key == "junk" || key == "spam" || Contains(key, "junk") || Contains(key, "spam") then "junk"
    else ""
  }

  /** A stated role wins over the one its name suggests. */
  function NormalizeAggregateRole(rawRole: string, mailboxName: string): string {
    var role := ToLower(TrimSpace(rawRole));
    if role != "" then role else RoleFromName(mailboxName)
  }

  /** The role of the first special-use attribute that names one. */
  function RoleFromAttributes(attributes: seq<string>): string {
    if attributes == [] then ""
    else
      var a := ToLower(TrimSpace(attributes[0]));
      if a == "\\inbox" then "inbox"
      else if a == "\\sent" then "sent"
      else if a == "\\trash" then "trash"
      else if a == "\\archive" || a == "\\all" then "archive"
      else if a == "\\junk" || a == "\\spam" then "junk"
      else if a == "\\drafts" then "drafts"
      else RoleFromAttributes(attributes[1..])
  }

  function MailboxRole(name: string, attributes: seq<string>): string {
    var r := RoleFromAttributes(attributes);
    if r != "" then r else RoleFromName(name)
  }

  function FirstByRole(mailboxes: seq<Mailbox>, target: string): Option<string> {
    if mailboxes == [] then None
    else if EqualFold(TrimSpace(mailboxes[0].role), target) then Some(TrimSpace(mailboxes[0].name))
    else FirstByRole(mailboxes[1..], target)
  }

  function FirstByName(mailboxes: seq<Mailbox>, target: string): Option<string> {
    if mailboxes == [] then None
    else if RoleFromName(mailboxes[0].name) == target then Some(TrimSpace(mailboxes[0].name))
    else FirstByName(mailboxes[1..], target)
  }

  /** A stated role anywhere in the list wins over a suggestive name. */
  function ResolveMailboxByRole(mailboxes: seq<Mailbox>, role: string): string {
    var target := ToLower(TrimSpace(role));
    if target == "" then ""
    else if FirstByRole(mailboxes, target).Some? then FirstByRole(mailboxes, target).value
    else if FirstByName(mailboxes, target).Some? then FirstByName(mailboxes, target).value
    else ""
  }

  lemma {:induction false} FirstByRoleFound(mailboxes: seq<Mailbox>, target: string)
    ensures FirstByRole(mailboxes, target).Some? ==>
      exists i :: 0 <= i < |mailboxes| && EqualFold(TrimSpace(mailboxes[i].role), target)
        && TrimSpace(mailboxes[i].name) == FirstByRole(mailboxes, target).value
    ensures FirstByRole(mailboxes, target).None? ==> forall i :: 0 <= i < |mailboxes| ==>
      !EqualFold(TrimSpace(mailboxes[i].role), target)
  {
    hide TrimSpace, EqualFold;
    if mailboxes != [] {
      FirstByRoleFound(mailboxes[1..], target);
      assert forall i :: 0 <= i < |mailboxes[1..]| ==> mailboxes[1..][i] == mailboxes[i + 1];
      if !EqualFold(TrimSpace(mailboxes[0].role), target) && FirstByRole(mailboxes, target).Some? {
        var i :| 0 <= i < |mailboxes[1..]| && EqualFold(TrimSpace(mailboxes[1..][i].role), target)
          && TrimSpace(mailboxes[1..][i].name) == FirstByRole(mailboxes[1..], target).value;
        assert mailboxes[i + 1] == mailboxes[1..][i];
      }
    }
  }

  lemma {:induction false} FirstByNameFound(mailboxes: seq<Mailbox>, target: string)
    ensures FirstByName(mailboxes, target).Some? ==>
      exists i :: 0 <= i < |mailboxes| && RoleFromName(mailboxes[i].name) == target
        && TrimSpace(mailboxes[i].name) == FirstByName(mailboxes, target).value
  {
    hide TrimSpace, RoleFromName;
    if mailboxes != [] && RoleFromName(mailboxes[0].name) != target && FirstByName(mailboxes, target).Some? {
      FirstByNameFound(mailboxes[1..], target);
      var i :| 0 <= i < |mailboxes[1..]| && RoleFromName(mailboxes[1..][i].name) == target
        && TrimSpace(mailboxes[1..][i].name) == FirstByName(mailboxes[1..], target).value;
      assert mailboxes[i + 1] == mailboxes[1..][i];
    }
  }
}
