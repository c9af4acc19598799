/** The two places a live message gets its thread id: the list view, from the IMAP envelope and
    a few header fields, and the full view, from the parsed message
    (internal/mail/imap_smtp.go, internal/mail/threading.go). */
module ThreadViews {
  import opened Text
  import opened Subject
  import opened MessageIds
  import opened Threading
  import B = Base64
  import C = ConversationIndex

  /** What a message carries. The two views read the id, the sender and the recipients through
      different libraries; the other fields are header text. */
  datatype Wire = Wire(
    envelopeID: string, headerID: string,
    inReplyTo: string, references: string,
    threadTopic: string, conversationTopic: string,
    threadIndex: string, conversationIndex: string, listID: string,
    subject: string, listFrom: string, fullFrom: string, recipients: seq<string>)

  function FirstNonBlank(a: string, b: string): string {
    if TrimSpace(a) != "" then TrimSpace(a) else TrimSpace(b)
  }

  /** The list view does not fetch Conversation-Index and Conversation-Topic. */
  function ListRoot(w: Wire): string {
    NormalizeRoot(FirstNonBlank(w.threadIndex, ""))
  }

  function FullRoot(w: Wire): string {
    NormalizeRoot(FirstNonBlank(w.threadIndex, w.conversationIndex))
  }

  /** The thread of a message without any usable id: its subject, or else its sender. */
  function SubjectThread(env: Env, subject: string, from: string): string {
    var s := NormalForm(subject);
    var f := ToLower(TrimSpace(from));
    "conv:" + env.hash(if s != "" then s else if f != "" then f else "untitled")
  }

  function LiveThread(env: Env, messageID: string, inReplyTo: string, references: seq<string>, subject: string,
      from: string): string {
    if NormalizeID(messageID) == "" && NormalizeID(inReplyTo) == "" && NormalizeIDs(references) == []
    then SubjectThread(env, subject, from)
    else ThreadID(env, Msg(messageID, inReplyTo, references, subject, from, [], "", "", ""))
  }

  /** The message as the list view has it, when it is not threaded by its index. */
  function Listed(w: Wire): Msg {
    var subject := FirstNonBlank(FirstNonBlank(w.threadTopic, ""), w.subject);
    Msg(w.envelopeID, w.inReplyTo, ParseIDList(w.references), subject, w.listFrom, [], "", "", "")
  }

  /** The list view. */
  function ListView(env: Env, w: Wire): string {
    if ListRoot(w) != "" then
      ThreadID(env, Msg(w.envelopeID, w.inReplyTo, ParseIDList(w.references), w.subject, w.listFrom,
        env.people(w.listFrom), FirstNonBlank(w.threadTopic, ""), ListRoot(w), TrimSpace(w.listID)))
    else
      var m := Listed(w);
      LiveThread(env, m.messageID, m.inReplyTo, m.references, m.subject, m.from)
  }

  /** The message as the full view has it. */
  function Parsed(w: Wire): Msg {
    var (inReplyTo, references) := ReadHeaders(w.references, w.inReplyTo);
    Msg(w.headerID, inReplyTo, references, w.subject, w.fullFrom, w.recipients,
      FirstNonBlank(w.threadTopic, w.conversationTopic), FullRoot(w), TrimSpace(w.listID))
  }

  /** The full view. */
  function FullView(env: Env, w: Wire): string {
    ThreadID(env, Parsed(w))
  }

  // ----- the conversation index -----

  lemma {:induction false} WithoutSpaceFixed(s: string)
    requires forall i :: 0 <= i < |s| ==> !IsSpace(s[i])
    ensures WithoutSpace(s) == s
  {
    if s != "" {
      WithoutSpaceFixed(s[1..]);
    }
  }

  lemma {:induction false} HexDigits(b: B.Bytes)
    ensures forall i :: 0 <= i < |C.HexEncode(b)| ==> 48 <= C.HexEncode(b)[i] < 128
  {
    if b != [] {
      HexDigits(b[1..]);
    }
  }

  lemma RootDigits(s: B.Bytes)
    ensures forall i :: 0 <= i < |C.RootText(s)| ==> 48 <= C.RootText(s)[i] < 128
  {
    if C.RootText(s) != [] {
      var r := C.RootBytes(s);
      HexDigits(r);
    }
  }

  lemma CodesOfChars(b: B.Bytes)
    requires forall i :: 0 <= i < |b| ==> 48 <= b[i] < 128
    ensures Ascii(B.Chars(b)) && Codes(B.Chars(b)) == b && WithoutSpace(B.Chars(b)) == B.Chars(b)
  {
    WithoutSpaceFixed(B.Chars(b));
  }

  /** Normalising a root again changes nothing. */
  lemma RootIdempotent(raw: string)
    ensures NormalizeRoot(NormalizeRoot(raw)) == NormalizeRoot(raw)
  {
    var v := WithoutSpace(raw);
    if v != "" && Ascii(v) {
      var root := C.RootText(Codes(v));
      RootDigits(Codes(v));
      CodesOfChars(root);
      C.RootTextIdempotent(Codes(v));
      hide C.RootText;
    }
  }

  // ----- first tokens -----

  lemma {:induction false} FirstOfAll(s: string)
    ensures FindToken(s) == if FindAll(s) == [] then None else Some(FindAll(s)[0])
  {
    hide MatchLength;
    if s != "" && MatchLength(s) == 0 {
      FirstOfAll(s[1..]);
    }
  }

  /** White space that ends a bare token: of the spaces trimming removes, the ASCII ones. */
  predicate PlainSpace(s: string) {
    forall i :: 0 <= i < |s| && IsSpace(s[i]) ==> !BareChar(s[i])
  }

  predicate Blanks(s: string) {
    forall i :: 0 <= i < |s| ==> !BareChar(s[i]) && IsSpace(s[i])
  }

  lemma {:induction false} SkipBlanks(front: string, s: string)
    requires Blanks(front)
    ensures FindToken(front + s) == FindToken(s)
  {
    if front == "" {
      assert front + s == s;
    } else {
      assert (front + s)[1..] == front[1..] + s;
      assert MatchLength(front + s) == 0;
      SkipBlanks(front[1..], s);
    }
  }

  lemma {:induction false} RunBeforeBlanks(s: string, back: string)
    requires Blanks(back)
    ensures RunLength(s + back) == RunLength(s)
  {
    if s == "" {
      assert s + back == back;
    } else {
      assert (s + back)[1..] == s[1..] + back;
      RunBeforeBlanks(s[1..], back);
    }
  }

  lemma {:induction false} BracketBeforeBlanks(s: string, back: string)
    requires Blanks(back)
    ensures ToBracket(s) < |s| ==> ToBracket(s + back) == ToBracket(s)
    ensures ToBracket(s) == |s| ==> ToBracket(s + back) == |s| + |back|
  {
    if s != "" {
      assert (s + back)[1..] == s[1..] + back;
      BracketBeforeBlanks(s[1..], back);
    } else {
      assert s + back == back;
      if back != "" {
        assert !BareChar(back[0]) && IsSpace(back[0]);
        BracketBeforeBlanks("", back[1..]);
        assert "" + back[1..] == back[1..];
      }
    }
  }

  lemma MatchBeforeBlanks(s: string, back: string)
    requires Blanks(back) && s != ""
    ensures MatchLength(s + back) == MatchLength(s)
  {
    var t := s + back;
    RunBeforeBlanks(s, back);
    BracketBeforeBlanks(s[1..], back);
    assert t[1..] == s[1..] + back;
    hide RunLength, ToBracket;
    assert forall i :: 0 <= i < |s| ==> t[i] == s[i];
    var n: int := RunLength(s);
    assert (exists i :: 0 < i < n - 1 && t[i] == '@') <==> (exists i :: 0 < i < n - 1 && s[i] == '@');
  }

  lemma {:induction false} StopAtBlanks(s: string, back: string)
    requires Blanks(back)
    ensures FindToken(s + back) == FindToken(s)
  {
    if s == "" {
      SkipBlanks(back, "");
      assert s + back == back + "";
    } else {
      MatchBeforeBlanks(s, back);
      hide MatchLength;
      assert (s + back)[1..] == s[1..] + back;
      assert (s + back)[..MatchLength(s)] == s[..MatchLength(s)];
      StopAtBlanks(s[1..], back);
    }
  }

  lemma PlainBlanks(s: string, i: nat, j: nat)
    requires PlainSpace(s) && i <= j <= |s| && AllSpace(s[i..j])
    ensures Blanks(s[i..j])
  {
    var t := s[i..j];
    forall k | 0 <= k < |t| ensures !BareChar(t[k]) && IsSpace(t[k]) {
      assert t[k] == s[i + k];
    }
  }

  /** Trimming does not change the first token. */
  lemma TrimKeepsToken(s: string)
    requires PlainSpace(s)
    ensures FindToken(TrimSpace(s)) == FindToken(s)
  {
    var i, j := TrimSpaceSplits(s);
    var front, core, back := s[..i], s[i..j], s[j..];
    hide TrimSpace, FindToken, PlainSpace, Blanks, AllSpace;
    assert s[0..i] == front && s[j..|s|] == back;
    PlainBlanks(s, 0, i);
    PlainBlanks(s, j, |s|);
    assert s == front + (core + back);
    SkipBlanks(front, core + back);
    StopAtBlanks(core, back);
  }

  /** A token, taken alone, is its own first token. */
  lemma {:induction false} TokenOfToken(s: string)
    requires PlainSpace(s) && FindToken(s).Some?
    ensures var t := FindToken(s).value; t != "" && FindToken(t) == Some(t) && PlainSpace(t)
  {
    var n := MatchLength(s);
    if n == 0 {
      TokenOfToken(s[1..]);
    } else {
      var t := s[..n];
      assert forall k :: 0 <= k < n ==> t[k] == s[k];
      MatchAlone(s);
      assert t[..n] == t;
    }
  }

  lemma MatchAlone(s: string)
    requires MatchLength(s) > 0
    ensures MatchLength(s[..MatchLength(s)]) == MatchLength(s)
  {
    var n := MatchLength(s);
    var t := s[..n];
    if s[0] == '<' {
      var k := n - 2;
      ToBracketStops(s[1..]);
      var id := s[1..][..k];
      assert t == Bracketed(id) + "" by {
        assert s[1..][k] == '>';
        assert t[n - 1] == s[n - 1] == '>';
      }
      hide MatchLength;
      assert '>' !in id && id != "";
      MatchBracketed(id, "");
    } else {
      RunIsBare(s);
      RunOfBare(t);
      var i :| 0 < i < n - 1 && s[i] == '@';
      assert t[i] == '@';
    }
  }

  lemma {:induction false} ToBracketStops(s: string)
    ensures '>' !in s[..ToBracket(s)]
    ensures ToBracket(s) < |s| ==> s[ToBracket(s)] == '>'
  {
    if s != "" && s[0] != '>' {
      ToBracketStops(s[1..]);
      assert s[..ToBracket(s)] == [s[0]] + s[1..][..ToBracket(s[1..])];
    }
  }

  lemma {:induction false} RunIsBare(s: string)
    ensures forall i :: 0 <= i < RunLength(s) ==> BareChar(s[i])
  {
    hide BareChar;
    if s != "" && BareChar(s[0]) {
      RunIsBare(s[1..]);
      assert forall i :: 1 <= i < |s| ==> s[i] == s[1..][i - 1];
    }
  }

  /** The value of a header and the value of its first token normalise alike. */
  lemma FirstTokenSpeaks(raw: string)
    requires PlainSpace(raw) && FindAll(raw) != []
    ensures NormalizeID(raw) == NormalizeID(FindAll(raw)[0])
  {
    FirstOfAll(raw);
    TrimKeepsToken(raw);
    TokenOfToken(raw);
    var t := FindAll(raw)[0];
    TrimKeepsToken(t);
    assert TrimSpace(t) != "" by {
      assert FindToken("") == None;
    }
    hide FindAll, FindToken, PlainSpace, TrimSpace, NormalizeToken;
  }

  // ----- the views agree -----

  lemma NormalizeHead(values: seq<string>)
    requires values != [] && NormalizeID(values[0]) != ""
    ensures NormalizeIDs(values) != [] && NormalizeIDs(values)[0] == NormalizeID(values[0])
  {
    hide NormalizeID;
  }

  /** A list that starts with a normal id keeps it, however often it is normalised and
      whatever follows. */
  lemma HeadStays(refs: seq<string>, more: seq<string>)
    requires refs != [] && WellFormed(refs[0]) && Lowered(refs[0])
    ensures var once := NormalizeIDs(refs + more);
      once != [] && once[0] == refs[0] && NormalizeIDs(once) != [] && NormalizeIDs(once)[0] == refs[0]
  {
    NormalizeWellFormed(refs[0]);
    NotEmpty(refs[0]);
    hide NormalizeID, WellFormed, NormalizeFrom;
    NormalizeHead(refs + more);
    NormalizeHead(NormalizeIDs(refs + more));
  }

  lemma {:induction false} ListLowered(values: seq<string>, seen: set<string>)
    ensures forall i :: 0 <= i < |NormalizeFrom(values, seen)| ==> Lowered(NormalizeFrom(values, seen)[i])
  {
    if values != [] {
      var n := NormalizeID(values[0]);
      NormalFormLowered(values[0]);
      hide NormalizeID, Lowered;
      ListLowered(values[1..], if n == "" || n in seen then seen else seen + {n});
    }
  }

  lemma ThreadByReference(env: Env, m: Msg, id: string)
    requires NormalizeRoot(m.index) == "" && NormalizeIDs(m.references) != [] && NormalizeIDs(m.references)[0] == id
    ensures ThreadID(env, m) == HeaderThread(env, id)
  {
    hide NormalizeIDs, NormalizeRoot, HeaderThread, HintApplies;
  }

  lemma {:induction false} BlankHasNoToken(s: string)
    requires AllSpace(s)
    ensures FindAll(s) == []
  {
    if s != "" {
      assert forall i :: 0 <= i < |s| ==> s[i] != '@' && s[i] != '<';
      BlankHasNoToken(s[1..]);
    }
  }

  lemma ReadNotBlank(raw: string)
    requires ParseIDList(raw) != []
    ensures FindAll(raw) != [] && TrimSpace(raw) != ""
  {
    BlankIsSpace(raw);
    if TrimSpace(raw) == "" {
      BlankHasNoToken(raw);
    }
    hide FindAll, TrimSpace;
  }

  /** The references a full parse ends with: those of the References field, then In-Reply-To. */
  lemma ReadReferences(references: string, inReplyTo: string)
    ensures var refs, replies := ParseIDList(references), ParseIDList(inReplyTo);
      ReadHeaders(references, inReplyTo).1 == if replies == [] then refs else NormalizeIDs(refs + replies)
  {
    if ParseIDList(references) != [] {
      ReadNotBlank(references);
    }
    if ParseIDList(inReplyTo) != [] {
      ReadNotBlank(inReplyTo);
    }
    hide ParseIDList, TrimSpace, NormalizeIDs;
  }

  predicate NormalHead(ids: seq<string>) {
    ids != [] && WellFormed(ids[0])
  }

  lemma HeadLowered(raw: string)
    requires NormalHead(ParseIDList(raw))
    ensures Lowered(ParseIDList(raw)[0])
  {
    ListLowered(FindAll(raw), {});
  }

  /** Without a root for the full view there is none for the list view. */
  lemma NoRoots(w: Wire)
    requires FullRoot(w) == ""
    ensures ListRoot(w) == "" && NormalizeRoot(FullRoot(w)) == ""
  {
    NoIndexNoRoot();
    BlankTrims();
    hide NormalizeRoot, TrimSpace;
  }

  lemma BlankTrims()
    ensures TrimSpace("") == ""
  {
  }

  /** With a reference to go by, both views take the first. */
  lemma AgreeByReference(env: Env, w: Wire)
    requires FullRoot(w) == "" && NormalHead(ParseIDList(w.references))
    ensures ListView(env, w) == FullView(env, w) == HeaderThread(env, ParseIDList(w.references)[0])
  {
    var refs := ParseIDList(w.references);
    HeadLowered(w.references);
    ReadReferences(w.references, w.inReplyTo);
    HeadStays(refs, []);
    assert refs + [] == refs;
    HeadStays(refs, ParseIDList(w.inReplyTo));
    NoRoots(w);
    NoIndexNoRoot();
    hide ParseIDList, NormalizeIDs, NormalizeRoot, ReadHeaders, HeaderThread, ThreadID, FirstNonBlank, FullRoot,
        ListRoot, NormalizeID, NormalForm, TrimSpace;
    ThreadByReference(env, Listed(w), refs[0]);
    ThreadByReference(env, Parsed(w), refs[0]);
  }

  /** A field whose first id is well-formed, its white space plain. */
  predicate SoundReply(inReplyTo: string) {
    PlainSpace(inReplyTo) && FindAll(inReplyTo) != [] && WellFormed(NormalizeID(FindAll(inReplyTo)[0]))
  }

  lemma SoundReplyHead(inReplyTo: string)
    requires SoundReply(inReplyTo)
    ensures NormalHead(ParseIDList(inReplyTo)) && NormalizeID(inReplyTo) == ParseIDList(inReplyTo)[0] != ""
  {
    FirstTokenSpeaks(inReplyTo);
    NotEmpty(NormalizeID(FindAll(inReplyTo)[0]));
    NormalizeHead(FindAll(inReplyTo));
    hide NormalizeIDs, NormalizeID, WellFormed, PlainSpace, FindAll;
  }

  /** Without references, both take the first id of In-Reply-To. */
  lemma AgreeByReply(env: Env, w: Wire)
    requires FullRoot(w) == "" && ParseIDList(w.references) == [] && SoundReply(w.inReplyTo)
    ensures ListView(env, w) == FullView(env, w) == HeaderThread(env, NormalizeID(w.inReplyTo))
  {
    var replies := ParseIDList(w.inReplyTo);
    SoundReplyHead(w.inReplyTo);
    HeadLowered(w.inReplyTo);
    ReadReferences(w.references, w.inReplyTo);
    HeadStays(replies, []);
    assert [] + replies == replies == replies + [];
    NoRoots(w);
    NoIndexNoRoot();
    assert NormalizeIDs([]) == [];
    hide ParseIDList, NormalizeIDs, NormalizeRoot, ReadHeaders, HeaderThread, FirstNonBlank, FullRoot, ListRoot,
        NormalizeID, NormalForm, HintApplies, TrimSpace;
    ThreadByReference(env, Parsed(w), replies[0]);
  }

  /** With a Thread-Index, both take its root. */
  lemma AgreeByIndex(env: Env, w: Wire)
    requires ListRoot(w) != ""
    ensures ListView(env, w) == FullView(env, w) == "cidx:" + env.hash("cidx:" + ListRoot(w))
  {
    NoIndexNoRoot();
    BlankTrims();
    RootIdempotent(FirstNonBlank(w.threadIndex, ""));
    hide ParseIDList, NormalizeIDs, NormalizeRoot, ReadHeaders, HeaderThread, TrimSpace, NormalizeID, NormalForm,
        HintApplies, HintThread;
  }

  // ----- a root only the full view sees -----

  lemma RootOfTrimmed(s: string)
    ensures NormalizeRoot(TrimSpace(s)) == NormalizeRoot(s)
  {
    var i, j := TrimSpaceSplits(s);
    hide TrimSpace, WithoutSpace;
    assert s == s[..i] + (s[i..j] + s[j..]);
    WithoutSpaceAppend(s[..i], s[i..j] + s[j..]);
    WithoutSpaceAppend(s[i..j], s[j..]);
    WithoutSpaceBlank(s[..i]);
    WithoutSpaceBlank(s[j..]);
    assert WithoutSpace(TrimSpace(s)) == WithoutSpace(s);
    hide C.RootText;
  }

  /** Thread-Index is blank and Conversation-Index has a root. */
  predicate SplitIndex(w: Wire) {
    TrimSpace(w.threadIndex) == "" && NormalizeRoot(w.conversationIndex) != ""
  }

  lemma SplitIsOneSided(w: Wire)
    ensures SplitIndex(w) <==> ListRoot(w) == "" && FullRoot(w) != ""
  {
    NoIndexNoRoot();
    BlankTrims();
    RootOfTrimmed(w.conversationIndex);
    hide NormalizeRoot, TrimSpace;
  }

  /** No id but that of an index begins like one. */
  lemma NotByIndex(env: Env, m: Msg, id: string)
    requires NormalizeRoot(m.index) == ""
    ensures ThreadID(env, m) != "cidx:" + id
  {
    hide NormalizeRoot, NormalizeIDs, NormalizeID, HintApplies, HintSubject;
    assert forall t: string :: ("hdr:" + t)[0] == 'h' && ("hint:" + t)[0] == 'h' && ("cidx:" + t)[0] == 'c';
  }

  lemma NotBySubject(env: Env, subject: string, from: string, id: string)
    ensures SubjectThread(env, subject, from) != "cidx:" + id
  {
    assert ("cidx:" + id)[1] == 'i';
    hide NormalForm;
    assert SubjectThread(env, subject, from)[1] == 'o';
  }

  /** Such a message has two thread ids, whatever else it carries. */
  lemma SplitViewsDiffer(env: Env, w: Wire)
    requires SplitIndex(w)
    ensures ListView(env, w) != FullView(env, w)
  {
    SplitIsOneSided(w);
    NoIndexNoRoot();
    RootIdempotent(FirstNonBlank(w.threadIndex, w.conversationIndex));
    hide NormalizeRoot, NormalizeIDs, NormalizeID, ThreadID, SubjectThread, SplitIndex, FirstNonBlank, ReadHeaders,
        ParseIDList, TrimSpace;
    var id := env.hash("cidx:" + FullRoot(w));
    assert FullView(env, w) == "cidx:" + id by { ByIndex(env, Parsed(w)); }
    var m := Listed(w);
    NotByIndex(env, m, id);
    NotBySubject(env, m.subject, m.from, id);
  }

  lemma ByIndex(env: Env, m: Msg)
    requires m.index != "" && NormalizeRoot(m.index) == m.index
    ensures ThreadID(env, m) == "cidx:" + env.hash("cidx:" + m.index)
  {
    hide NormalizeRoot, NormalizeIDs, NormalizeID, HintApplies, HintSubject, HintThread;
  }

  /** The message names its parent: a well-formed first reference, or none and a well-formed In-Reply-To. */
  predicate Answers(w: Wire) {
    || NormalHead(ParseIDList(w.references))
    || (ParseIDList(w.references) == [] && SoundReply(w.inReplyTo))
  }

  /** A message with a Thread-Index, or one that names its parent, has one thread id whichever view computes it,
      exactly when it does not carry its only root in Conversation-Index. */
  lemma ViewsAgreeExactly(env: Env, w: Wire)
    requires ListRoot(w) != "" || Answers(w)
    ensures ListView(env, w) == FullView(env, w) <==>
      TrimSpace(w.threadIndex) != "" || NormalizeRoot(w.conversationIndex) == ""
  {
    SplitIsOneSided(w);
    hide ListView, FullView, NormalizeRoot, ParseIDList, NormalHead, SoundReply, TrimSpace, ListRoot, FullRoot;
    if SplitIndex(w) {
      SplitViewsDiffer(env, w);
    } else if ListRoot(w) != "" {
      AgreeByIndex(env, w);
    } else if NormalHead(ParseIDList(w.references)) {
      AgreeByReference(env, w);
    } else {
      AgreeByReply(env, w);
    }
  }

  /** 44 letters A are hexadecimal for 22 bytes. */
  lemma LettersHaveRoot(s: string)
    requires |s| == 44 && forall i :: 0 <= i < |s| ==> s[i] == 'A'
    ensures NormalizeRoot(s) != ""
  {
    WithoutSpaceFixed(s);
    C.LettersAreHex(Codes(s));
    hide C.HexDecode, C.FirstRoot, WithoutSpace;
  }

  /** A message like that: a reply whose only index is a Conversation-Index. */
  lemma ConversationIndexSplits(env: Env, w: Wire)
    requires w.references == "<a@b>" && w.threadIndex == ""
    requires |w.conversationIndex| == 44 && forall i :: 0 <= i < 44 ==> w.conversationIndex[i] == 'A'
    ensures Answers(w) && ListView(env, w) != FullView(env, w)
  {
    LettersHaveRoot(w.conversationIndex);
    BlankTrims();
    assert NormalHead(ParseIDList("<a@b>")) by { OneReference(); }
    hide NormalHead, ParseIDList, ListView, FullView, NormalizeRoot, TrimSpace;
    SplitViewsDiffer(env, w);
  }

  lemma OneReference()
    ensures NormalHead(ParseIDList("<a@b>"))
  {
    var id := "a@b";
    assert WellFormed(id);
    assert "<a@b>" == Bracketed(id);
    var ids := [id];
    FindAllFormatted(ids);
    NormalizeNormal(ids, {});
  }

  // ----- messages that start a conversation -----

  /** A message without a parent, under one id. */
  predicate Fresh(w: Wire) {
    && ParseIDList(w.references) == [] && ParseIDList(w.inReplyTo) == [] && NormalizeID(w.inReplyTo) == ""
    && NormalizeID(w.envelopeID) == NormalizeID(w.headerID)
  }

  /** The thread of a message without index and parent, by its hint or its id. */
  function OwnThread(env: Env, m: Msg): string {
    if HintApplies(env, m) then HintThread(env, HintSubject(env, m), [m.from] + m.recipients, m.listID)
    else if NormalizeID(m.messageID) != "" then HeaderThread(env, NormalizeID(m.messageID))
    else HintThread(env, m.subject, [m.from] + m.recipients, m.listID)
  }

  lemma FreshList(env: Env, w: Wire)
    requires ListRoot(w) == "" && Fresh(w)
    ensures ListView(env, w) ==
      if NormalizeID(w.headerID) == "" then SubjectThread(env, Listed(w).subject, w.listFrom)
      else OwnThread(env, Listed(w))
  {
    NoIndexNoRoot();
    assert NormalizeIDs([]) == [];
    hide ParseIDList, NormalizeIDs, NormalizeRoot, HeaderThread, FirstNonBlank, ListRoot, NormalizeID, HintApplies,
        HintThread, HintSubject, SubjectThread, TrimSpace;
  }

  lemma FreshFull(env: Env, w: Wire)
    requires FullRoot(w) == "" && Fresh(w)
    ensures FullView(env, w) == OwnThread(env, Parsed(w))
  {
    NoRoots(w);
    ReadReferences(w.references, w.inReplyTo);
    assert NormalizeIDs([]) == [] && NormalizeID("") == "";
    assert ReadHeaders(w.references, w.inReplyTo).0 == "";
    hide ParseIDList, NormalizeIDs, NormalizeRoot, HeaderThread, FirstNonBlank, FullRoot, NormalizeID, HintApplies,
        HintThread, HintSubject, ReadHeaders, TrimSpace;
  }

  /** The kinds of thread id do not meet. */
  lemma KindsDiffer(env: Env, subject: string, from: string, id: string, hint: string, people: seq<string>,
      list: string)
    ensures
      var s, h, t := SubjectThread(env, subject, from), HeaderThread(env, id), HintThread(env, hint, people, list);
      s != h && s != t && h != t
  {
    hide NormalForm, TrimSpace;
    assert SubjectThread(env, subject, from)[0] == 'c' && HeaderThread(env, id)[1] == 'd';
    assert HintThread(env, hint, people, list)[0] == 'h' && HintThread(env, hint, people, list)[1] == 'i';
  }

  /** Of a message that starts a conversation the views agree exactly when it has an id and the subject speaks for it
      in both views, to the same effect, or in neither. */
  lemma FreshViewsExactly(env: Env, w: Wire)
    requires FullRoot(w) == "" && Fresh(w)
    ensures ListView(env, w) == FullView(env, w) <==>
      var l, f := Listed(w), Parsed(w);
      && NormalizeID(w.headerID) != ""
      && (HintApplies(env, l) <==> HintApplies(env, f))
      && (HintApplies(env, f) ==>
            HintThread(env, HintSubject(env, l), [w.listFrom], "") ==
            HintThread(env, HintSubject(env, f), [w.fullFrom] + w.recipients, TrimSpace(w.listID)))
  {
    NoRoots(w);
    FreshList(env, w);
    FreshFull(env, w);
    hide ListView, FullView, FullRoot, ListRoot, NormalizeID, HintApplies, HintThread, HintSubject, HeaderThread,
        SubjectThread, ReadHeaders, FirstNonBlank, ParseIDList, NormalizeRoot, TrimSpace;
    var l, f := Listed(w), Parsed(w);
    var own := NormalizeID(w.headerID);
    assert [w.listFrom] + [] == [w.listFrom];
    KindsDiffer(env, l.subject, l.from, own, HintSubject(env, f), [f.from] + f.recipients, f.listID);
    KindsDiffer(env, l.subject, l.from, own, HintSubject(env, l), [l.from] + l.recipients, l.listID);
    KindsDiffer(env, l.subject, l.from, own, f.subject, [f.from] + f.recipients, f.listID);
  }

  /** The first message of a mailing-list conversation, with a subject that is no reply, has two thread ids: the
      list view passes List-Id over. */
  lemma ListMailSplits(env: Env, w: Wire)
    requires FullRoot(w) == "" && Fresh(w) && TrimSpace(w.listID) != "" && HintSubject(env, Parsed(w)) != ""
    requires !LooksReply(Listed(w).subject)
    ensures ListView(env, w) != FullView(env, w)
  {
    TrimSpaceIdempotent(w.listID);
    BlankTrims();
    hide ListView, FullView, FullRoot, ListRoot, NormalizeID, HintThread, HintSubject, LooksReply, ReadHeaders,
        FirstNonBlank, ParseIDList, NormalizeRoot, TrimSpace, Fresh;
    FreshViewsExactly(env, w);
  }

  // ----- topics and senders -----

  /** In the list view a Thread-Topic stands for the subject. */
  lemma ListTopic(env: Env, w: Wire, subject: string)
    requires TrimSpace(w.threadTopic) != "" && ListRoot(w) == ""
    ensures ListView(env, w) == ListView(env, w.(threadTopic := "", subject := w.threadTopic))
    ensures ListView(env, w) == ListView(env, w.(subject := subject))
  {
    TrimSpaceIdempotent(w.threadTopic);
    BlankTrims();
    hide TrimSpace, LiveThread, ParseIDList, NormalizeRoot;
  }

  /** In the full view a Conversation-Topic stands in for a missing Thread-Topic. */
  lemma FullTopic(env: Env, w: Wire, topic: string)
    ensures TrimSpace(w.threadTopic) == "" ==>
      FullView(env, w) == FullView(env, w.(threadTopic := w.conversationTopic, conversationTopic := ""))
    ensures TrimSpace(w.threadTopic) != "" ==> FullView(env, w) == FullView(env, w.(conversationTopic := topic))
  {
    BlankTrims();
    hide TrimSpace, ThreadID, ReadHeaders, NormalizeRoot;
  }

  /** Of messages without any id those with a subject are told apart by its form, and the others by their sender. */
  lemma SubjectThreads(env: Env, s: string, from: string, t: string, other: string)
    requires forall x, y :: env.hash(x) == env.hash(y) ==> x == y
    requires NormalForm(s) != ""
    ensures NormalForm(t) != "" ==>
      (SubjectThread(env, s, from) == SubjectThread(env, t, other) <==> NormalForm(s) == NormalForm(t))
    ensures NormalForm(t) == "" && TrimSpace(other) != "" ==>
      (SubjectThread(env, t, other) == SubjectThread(env, s, from) <==> ToLower(TrimSpace(other)) == NormalForm(s))
  {
    hide NormalForm, TrimSpace;
    Prefixed(SubjectThread(env, s, from), env.hash(NormalForm(s)));
    Prefixed(SubjectThread(env, t, other), env.hash(NormalForm(t)));
    Prefixed(SubjectThread(env, t, other), env.hash(ToLower(TrimSpace(other))));
  }

  lemma Prefixed(thread: string, hash: string)
    ensures thread == "conv:" + hash ==> thread[5..] == hash
  {
  }

  /** A reply as it travels: the headers written from its parent's ids, the rest as it may. */
  predicate CarriesReply(w: Wire, parent: Msg) {
    var (inReplyTo, refs) := BuildReplyHeaders(parent.messageID, parent.inReplyTo, parent.references);
    w.references == FormatReferences(refs, inReplyTo) && w.inReplyTo == FormatID(inReplyTo)
  }

  /** Both views put a reply in its parent's conversation. */
  lemma ReplyViews(env: Env, w: Wire, parent: Msg)
    requires Good(parent) && CarriesReply(w, parent) && FullRoot(w) == ""
    ensures ListView(env, w) == FullView(env, w) == HeaderThread(env, RootRef(parent))
  {
    BuildIsNormal(parent);
    var (inReplyTo, refs) := BuildReplyHeaders(parent.messageID, parent.inReplyTo, parent.references);
    FormatNormal(refs, inReplyTo, {});
    FindAllFormatted(refs);
    NormalizeNormal(refs, {});
    hide BuildReplyHeaders, FormatFrom, FindAll, NormalizeFrom, FormatID, Good, RootRef, ListView, FullView,
        FullRoot, WellFormed;
    assert ParseIDList(w.references) == refs;
    AgreeByReference(env, w);
  }
}
