/** Conversation threading: deriving thread ids, replying, and reading a reply back
    (internal/mail/threading.go, internal/mail/imap_smtp.go). SHA-256, address parsing and
    header-word decoding are parameters. */
module Threading {
  import opened Text
  import opened Subject
  import opened MessageIds
  import B = Base64
  import C = ConversationIndex

  datatype Env = Env(hash: string -> string, people: string -> seq<string>, decode: string -> string)

  // ----- the conversation index as header text -----

  predicate Ascii(s: string) {
    forall i :: 0 <= i < |s| ==> s[i] < 128 as char
  }

  function Codes(s: string): (r: B.Bytes)
    requires Ascii(s)
    ensures |r| == |s| && forall i :: 0 <= i < |s| ==> r[i] == s[i] as int
  {
    seq(|s|, i requires 0 <= i < |s| => s[i] as int)
  }

  /** Non-ASCII text decodes under no accepted encoding. */
  function NormalizeRoot(raw: string): string {
    var v := WithoutSpace(raw);
    if v == "" || !Ascii(v) then "" else B.Chars(C.RootText(Codes(v)))
  }

  // ----- deriving thread ids -----

  function HeaderThread(env: Env, id: string): string {
    "hdr:" + env.hash("hdr:" + id)
  }

  function HintThread(env: Env, subject: string, participants: seq<string>, listID: string): string {
    var base := if NormalForm(subject) == "" then "untitled" else NormalForm(subject);
    var people := env.people(Join(participants, ", "));
    var list := ToLower(TrimSpace(listID));
    "hint:" + env.hash("hint:" + base
      + (if people == [] then "" else "|" + Join(people, ","))
      + (if list == "" then "" else "|list:" + list))
  }

  /** A subject that begins like a reply, after its list tags, or ends like a forward. */
  predicate LooksReply(subject: string) {
    var t := TrimSpace(subject);
    MarkerLength(StripTags(t)) > 0 || TrailerLength(ToLower(t)) > 0
  }

  /** The fields of a message that threading reads. */
  datatype Msg = Msg(
    messageID: string, inReplyTo: string, references: seq<string>,
    subject: string, from: string, recipients: seq<string>,
    topic: string, index: string, listID: string)

  function HintSubject(env: Env, m: Msg): string {
    var t := TrimSpace(NormalForm(env.decode(m.topic)));
    if t != "" then t else TrimSpace(NormalForm(m.subject))
  }

  /** The subject speaks for a message without reply headers. */
  predicate HintApplies(env: Env, m: Msg) {
    HintSubject(env, m) != "" && (LooksReply(m.subject) || TrimSpace(m.topic) != "" || TrimSpace(m.listID) != "")
  }

  function ThreadID(env: Env, m: Msg): string {
    var root := NormalizeRoot(m.index);
    var refs := NormalizeIDs(m.references);
    if root != "" then "cidx:" + env.hash("cidx:" + root)
    else if refs != [] then HeaderThread(env, refs[0])
    else if NormalizeID(m.inReplyTo) != "" then HeaderThread(env, NormalizeID(m.inReplyTo))
    else if HintApplies(env, m) then HintThread(env, HintSubject(env, m), [m.from] + m.recipients, m.listID)
    else if NormalizeID(m.messageID) != "" then HeaderThread(env, NormalizeID(m.messageID))
    else HintThread(env, m.subject, [m.from] + m.recipients, m.listID)
  }

  // ----- replying and reading the reply back -----

  /** The reference handling of parseMessage: In-Reply-To ids follow the references. */
  function ReadHeaders(rawReferences: string, rawInReplyTo: string): (string, seq<string>) {
    var refs := if TrimSpace(rawReferences) != "" then ParseIDList(rawReferences) else [];
    var replyRefs := if TrimSpace(rawInReplyTo) != "" then ParseIDList(rawInReplyTo) else [];
    if replyRefs == [] then ("", refs) else (TrimSpace(replyRefs[0]), NormalizeIDs(refs + replyRefs))
  }

  /** What the sender of a reply chooses; `messageID` is the id the reply is sent under. */
  datatype Draft = Draft(messageID: string, subject: string, from: string, recipients: seq<string>, topic: string,
      listID: string)

  /** A reply, sent and received: headers built, written, and parsed again. */
  function Reply(parent: Msg, d: Draft): Msg {
    var (inReplyTo, refs) := BuildReplyHeaders(parent.messageID, parent.inReplyTo, parent.references);
    var written := if inReplyTo == "" then "" else FormatID(inReplyTo);
    var (irt, references) := ReadHeaders(FormatReferences(refs, inReplyTo), written);
    Msg(d.messageID, irt, references, d.subject, d.from, d.recipients, d.topic, "", d.listID)
  }

  function Chain(root: Msg, drafts: seq<Draft>): Msg {
    if drafts == [] then root else Reply(Chain(root, drafts[..|drafts| - 1]), drafts[|drafts| - 1])
  }

  // ----- stability -----

  /** Ids whose normal forms are well-formed, and an id of its own. */
  predicate Good(m: Msg) {
    && WellFormed(NormalizeID(m.messageID))
    && Clear(m.inReplyTo)
    && forall i :: 0 <= i < |m.references| ==> Clear(m.references[i])
  }

  /** The id a whole conversation hangs on. */
  function RootRef(m: Msg): string {
    var refs := NormalizeIDs(m.references);
    if refs != [] then refs[0]
    else if NormalizeID(m.inReplyTo) != "" then NormalizeID(m.inReplyTo)
    else NormalizeID(m.messageID)
  }

  /** The messages a message says it comes from: its references, or else what it replies to. */
  function Ancestors(m: Msg): seq<string> {
    var refs, parent := NormalizeIDs(m.references), NormalizeID(m.inReplyTo);
    if refs != [] || parent == "" then refs else [parent]
  }

  /** A list with one more id at its end, unless it is there already. */
  function Extended(ids: seq<string>, id: string): seq<string> {
    if id in ids then ids else ids + [id]
  }

  /** The headers of a reply name the parent, and list all its ancestors in order and then the parent. */
  lemma BuildIsNormal(m: Msg)
    requires Good(m)
    ensures var (irt, refs) := BuildReplyHeaders(m.messageID, m.inReplyTo, m.references);
      && irt == NormalizeID(m.messageID) && refs == Extended(Ancestors(m), irt)
      && NormalList(refs) && irt in refs && refs[0] == RootRef(m)
  {
    var p, r := NormalizeID(m.messageID), NormalizeID(m.inReplyTo);
    NormalFormLowered(m.messageID);
    NormalFormLowered(m.inReplyTo);
    NormalizeGivesNormal(m.references, {});
    NotEmpty(p);
    var refs := NormalizeIDs(m.references);
    var seeded := if refs == [] && r != "" then [r] else refs;
    hide NormalizeID, WellFormed, Lowered, NormalizeFrom;
    assert NormalList(seeded) && seeded == Ancestors(m);
    SeededNormal(seeded, p);
  }

  lemma SeededNormal(seeded: seq<string>, p: string)
    requires NormalList(seeded) && WellFormed(p) && Lowered(p)
    ensures var refs := NormalizeIDs(seeded + [p]);
      && refs == Extended(seeded, p) && NormalList(refs) && p in refs
      && refs[0] == if seeded != [] then seeded[0] else p
  {
    NormalizeSnoc(seeded, p, {});
    if p !in seeded {
      NormalListSnoc(seeded, p);
    }
    hide WellFormed, Lowered, NormalizeFrom, NormalList;
    assert (seeded + [p])[|seeded|] == p;
  }

  lemma NormalListSnoc(ids: seq<string>, p: string)
    requires NormalList(ids) && WellFormed(p) && Lowered(p) && p !in ids
    ensures NormalList(ids + [p])
  {
    hide WellFormed, Lowered;
    var refs := ids + [p];
    assert forall i :: 0 <= i < |refs| ==> refs[i] == if i < |ids| then ids[i] else p;
  }

  lemma {:induction false} FormatNormal(ids: seq<string>, p: string, seen: set<string>)
    requires NormalList(ids) && WellFormed(p) && Lowered(p) && (p in ids || p in seen)
    requires Unseen(ids, seen)
    ensures FormatFrom(ids + [p], seen) == BracketAll(ids)
  {
    hide Unbracket, FormatID, WellFormed, NormalList, Unseen, NormalizeID;
    if ids == [] {
      FormatSeen(p, seen);
    } else {
      NormalHeadTail(ids, seen);
      FormatWellFormed(ids[0]);
      assert (ids + [p])[0] == ids[0] && (ids + [p])[1..] == ids[1..] + [p];
      assert ids == [ids[0]] + ids[1..];
      assert BracketAll(ids) == [Bracketed(ids[0])] + BracketAll(ids[1..]);
      hide ToLower;
      FormatNormal(ids[1..], p, seen + {ids[0]});
    }
  }

  lemma FormatSeen(p: string, seen: set<string>)
    requires WellFormed(p) && Lowered(p) && p in seen
    ensures FormatFrom([] + [p], seen) == BracketAll([])
  {
    FormatWellFormed(p);
    hide Unbracket, FormatID, WellFormed, ToLower;
    assert [] + [p] == [p] && [p][1..] == [];
    assert FormatFrom([p][1..], seen) == [];
  }

  lemma FormatWellFormed(id: string)
    requires WellFormed(id)
    ensures Unbracket(id) == id && FormatID(id) == Bracketed(id)
  {
    NormalizeBareToken(id);
    assert BareChar(id[0]) && BareChar(id[|id| - 1]);
    hide TrimSpace;
  }

  /** An id is formatted alike with and without brackets. */
  lemma FormatBracketed(id: string)
    requires WellFormed(id)
    ensures Unbracket(Bracketed(id)) == id == Unbracket(id) && FormatID(Bracketed(id)) == FormatID(id) == Bracketed(id)
  {
    FormatWellFormed(id);
    var b := Bracketed(id);
    assert Trimmed(b);
    TrimmedIsFixed(b);
    assert b[1..] == id + ">" && (id + ">")[..|id|] == id;
    hide TrimSpace, WellFormed;
  }

  lemma BlankIsSpace(s: string)
    ensures TrimSpace(s) == "" ==> AllSpace(s)
  {
    var i, j := TrimSpaceSplits(s);
    assert s == s[..i] + s[i..j] + s[j..];
  }

  lemma BracketedNotBlank(id: string, rest: string)
    ensures TrimSpace(Bracketed(id) + rest) != ""
  {
    var s := Bracketed(id) + rest;
    BlankIsSpace(s);
    assert s[0] == '<';
  }

  lemma ReferencesSurvive(refs: seq<string>, p: string)
    requires NormalList(refs) && p in refs
    ensures ParseIDList(FormatReferences(refs, p)) == refs && TrimSpace(FormatReferences(refs, p)) != ""
  {
    var k :| 0 <= k < |refs| && refs[k] == p;
    FormatNormal(refs, p, {});
    FindAllFormatted(refs);
    NormalizeNormal(refs, {});
    hide FindAll, NormalizeFrom, TrimSpace, WellFormed, Lowered, FormatFrom;
    JoinStarts(BracketAll(refs));
    var rest :| Join(BracketAll(refs), " ") == BracketAll(refs)[0] + rest;
    BracketedNotBlank(refs[0], rest);
  }

  lemma IDSurvives(p: string)
    requires WellFormed(p) && Lowered(p)
    ensures ParseIDList(FormatID(p)) == [p] && TrimSpace(FormatID(p)) != "" && TrimSpace(p) == p
  {
    FormatWellFormed(p);
    FindAllFormatted([p]);
    assert BracketAll([p]) == [Bracketed(p)];
    NormalizeNormal([p], {});
    NormalizeBareToken(p);
    BracketedNotBlank(p, "");
    assert Bracketed(p) + "" == Bracketed(p);
    hide FormatID, FindAll, NormalizeFrom, TrimSpace, WellFormed;
  }

  /** Written out and parsed again, the headers of a reply are what they were. */
  lemma HeadersSurvive(refs: seq<string>, p: string)
    requires NormalList(refs) && p in refs
    ensures ReadHeaders(FormatReferences(refs, p), FormatID(p)) == (p, refs)
  {
    var k :| 0 <= k < |refs| && refs[k] == p;
    assert WellFormed(p) && Lowered(p);
    ReferencesSurvive(refs, p);
    IDSurvives(p);
    NormalizeSnoc(refs, p, {});
    hide FormatID, FormatReferences, ParseIDList, NormalizeFrom, TrimSpace, NormalList;
  }

  lemma JoinStarts(parts: seq<string>)
    requires parts != []
    ensures exists rest :: Join(parts, " ") == parts[0] + rest
  {
    if |parts| == 1 {
      assert Join(parts, " ") == parts[0] + "";
    } else {
      assert Join(parts, " ") == parts[0] + (" " + Join(parts[1..], " "));
    }
  }

  /** A reply, sent and received, carries all its parent's ancestors in order and then the parent. */
  lemma ReplyIsGood(parent: Msg, d: Draft)
    requires Good(parent) && WellFormed(NormalizeID(d.messageID))
    ensures var r := Reply(parent, d);
      && Good(r) && NormalList(r.references) && r.references != []
      && r.references == Extended(Ancestors(parent), NormalizeID(parent.messageID)) == Ancestors(r)
      && r.references[0] == RootRef(parent) == RootRef(r)
      && r.inReplyTo == NormalizeID(parent.messageID)
  {
    BuildIsNormal(parent);
    var (irt, refs) := BuildReplyHeaders(parent.messageID, parent.inReplyTo, parent.references);
    HeadersSurvive(refs, irt);
    NormalizeNormal(refs, {});
    hide BuildReplyHeaders, ReadHeaders, FormatReferences, FormatID, NormalizeFrom;
    forall i | 0 <= i < |refs| ensures Clear(refs[i]) {
      NormalizeWellFormed(refs[i]);
    }
    NormalizeWellFormed(irt);
    NormalFormLowered(parent.messageID);
  }

  /** Whole reply chains: every reply keeps the first reference, so all of them share one
      thread id. */
  lemma {:induction false} ChainKeepsThread(env: Env, root: Msg, drafts: seq<Draft>)
    requires Good(root) && forall i :: 0 <= i < |drafts| ==> WellFormed(NormalizeID(drafts[i].messageID))
    ensures Good(Chain(root, drafts)) && RootRef(Chain(root, drafts)) == RootRef(root)
    ensures drafts != [] ==> ThreadID(env, Chain(root, drafts)) == HeaderThread(env, RootRef(root))
  {
    if drafts != [] {
      var before, d := drafts[..|drafts| - 1], drafts[|drafts| - 1];
      ChainKeepsThread(env, root, before);
      ReplyIsGood(Chain(root, before), d);
      var r := Chain(root, drafts);
      NormalizeNormal(r.references, {});
      NoIndexNoRoot();
      hide Good, Reply, RootRef, NormalizeFrom, HintApplies, NormalizeRoot;
    }
  }

  /** The ids of a root and of the replies that have been answered, oldest first. */
  function Answered(root: Msg, drafts: seq<Draft>): seq<string>
    requires drafts != []
  {
    if |drafts| == 1 then [NormalizeID(root.messageID)]
    else Answered(root, drafts[..|drafts| - 1]) + [NormalizeID(drafts[|drafts| - 2].messageID)]
  }

  lemma DistinctFront(a: seq<string>, b: seq<string>, x: string)
    requires Distinct(a + (b + [x]))
    ensures Distinct(a + b) && x !in a + b && a + (b + [x]) == a + b + [x]
  {
    var all := a + (b + [x]);
    assert all == a + b + [x];
    assert forall i :: 0 <= i < |a + b| ==> all[i] == (a + b)[i];
    assert all[|a + b|] == x;
  }

  /** Whole reply chains: where no id repeats, the last reply lists the root's ancestors, the root, and every reply
      before it, in order. */
  lemma {:induction false} ChainReferences(env: Env, root: Msg, drafts: seq<Draft>)
    requires Good(root) && drafts != []
    requires forall i :: 0 <= i < |drafts| ==> WellFormed(NormalizeID(drafts[i].messageID))
    requires Distinct(Ancestors(root) + Answered(root, drafts))
    ensures Chain(root, drafts).references == Ancestors(root) + Answered(root, drafts)
    ensures Ancestors(Chain(root, drafts)) == Chain(root, drafts).references
    ensures Chain(root, drafts).messageID == drafts[|drafts| - 1].messageID
  {
    hide *;
    var n := |drafts| - 1;
    var before, d := drafts[..n], drafts[n];
    ChainSnoc(root, drafts);
    AnsweredSnoc(root, drafts);
    ChainKeepsThread(env, root, before);
    ReplyIsGood(Chain(root, before), d);
    if n == 0 {
      ExtendedFresh(Ancestors(root), [], NormalizeID(root.messageID));
    } else {
      var id := NormalizeID(drafts[n - 1].messageID);
      ExtendedFresh(Ancestors(root), Answered(root, before), id);
      ChainReferences(env, root, before);
    }
  }

  lemma ChainSnoc(root: Msg, drafts: seq<Draft>)
    requires drafts != []
    ensures var n := |drafts| - 1; Chain(root, drafts) == Reply(Chain(root, drafts[..n]), drafts[n])
    ensures Chain(root, drafts).messageID == drafts[|drafts| - 1].messageID
    ensures |drafts| == 1 ==> Chain(root, drafts[..0]) == root
  {
    hide BuildReplyHeaders, ReadHeaders, FormatReferences, FormatID;
  }

  lemma AnsweredSnoc(root: Msg, drafts: seq<Draft>)
    requires drafts != []
    ensures |drafts| == 1 ==> Answered(root, drafts) == [] + [NormalizeID(root.messageID)]
    ensures |drafts| > 1 ==> var n := |drafts| - 1;
      Answered(root, drafts) == Answered(root, drafts[..n]) + [NormalizeID(drafts[n - 1].messageID)]
  {
    hide NormalizeID;
  }

  lemma ExtendedFresh(a: seq<string>, b: seq<string>, x: string)
    requires Distinct(a + (b + [x]))
    ensures Distinct(a + b) && Extended(a + b, x) == a + (b + [x]) && a + [] == a
  {
    DistinctFront(a, b, x);
  }

  lemma NoIndexNoRoot()
    ensures NormalizeRoot("") == ""
  {
  }

  /** The message a conversation starts from shares that id exactly when it has references or an
      In-Reply-To, or the subject does not speak for it. */
  lemma RootSharesThread(env: Env, root: Msg)
    requires Good(root) && NormalizeRoot(root.index) == ""
    ensures ThreadID(env, root) == HeaderThread(env, RootRef(root)) <==>
      NormalizeIDs(root.references) != [] || NormalizeID(root.inReplyTo) != "" || !HintApplies(env, root)
  {
    NotEmpty(NormalizeID(root.messageID));
    var people := [root.from] + root.recipients;
    HintIsNoHeader(env, HintSubject(env, root), people, root.listID, RootRef(root));
    hide NormalizeIDs, NormalizeID, HintApplies, NormalizeRoot, Good, HintThread, HeaderThread, HintSubject;
  }

  lemma HintIsNoHeader(env: Env, subject: string, people: seq<string>, listID: string, id: string)
    ensures HintThread(env, subject, people, listID) != HeaderThread(env, id)
  {
    hide NormalForm;
    assert HintThread(env, subject, people, listID)[1] == 'i' && HeaderThread(env, id)[1] == 'd';
  }

  lemma NotEmpty(id: string)
    requires WellFormed(id)
    ensures id != ""
  {
  }
}
