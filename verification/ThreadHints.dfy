/** Threads of messages that name no parent: when the subject speaks for them, and when two of them meet
    (internal/mail/threading.go). */
module ThreadHints {
  import opened Text
  import opened Subject
  import opened SubjectConfluence
  import opened SubjectForms
  import opened MessageIds
  import opened Threading

  // ----- what looks like a reply -----

  lemma {:induction false} PlainHasNoTags(s: string)
    requires TagLength(s) == 0
    ensures StripTags(s) == s
  {
  }

  /** A plain subject looks like no reply. */
  lemma PlainIsNoReply(s: string)
    requires Plain(s)
    ensures !LooksReply(s)
  {
    TrimmedIsFixed(s);
    PlainHasNoTags(s);
    hide TrimSpace, MarkerLength, TagLength, TrailerLength, StripTags;
  }

  lemma MarkedStart(body: string, s: string)
    requires Marks(body) && ':' !in body && Trimmed(s)
    ensures Trimmed(body + ":" + s) && TagLength(body + ":" + s) == 0
  {
    var t := body + ":" + s;
    MarkedBody(body);
    BodyVisible(body);
    BodyBeginsWithLetter(body);
    assert t[0] == body[0];
    assert t[|t| - 1] == if s == "" then ':' else s[|s| - 1];
    hide MarkerBody, Marks;
  }

  /** A subject behind a marker does, and so does one in front of a trailer. */
  lemma MarkedIsReply(body: string, s: string)
    requires Marks(body) && ':' !in body && Trimmed(s)
    ensures LooksReply(body + ":" + s)
  {
    MarkedStart(body, s);
    MarkersExact(body, s);
    TrimmedIsFixed(body + ":" + s);
    PlainHasNoTags(body + ":" + s);
    hide TrimSpace, MarkerLength, TagLength, TrailerLength, StripTags, Marks;
  }

  lemma ForwardedIsReply(s: string, w: string)
    requires w == "(fwd)" || w == "(fw)"
    ensures LooksReply(s + w)
  {
    var i := TrimKeepsBack(s, w);
    var t := s[i..] + w;
    assert TrimSpace(s + w) == t;
    LowerConcat(s[i..], w);
    assert ToLower(w) == w;
    var low := ToLower(t);
    assert low[|low| - |w|..] == w;
    hide TrimSpace, MarkerLength, StripTags;
    TrailersExact(low);
  }

  /** Without reply headers the subject speaks for a message exactly when it says something, and it looks like a reply
      or the message carries a topic or a list. */
  lemma HintKinds(env: Env, m: Msg, s: string)
    requires m.subject == s && Plain(s) && s != "" && AllSpace(m.topic) && NormalForm(env.decode(m.topic)) == ""
    ensures HintSubject(env, m) == s
    ensures HintApplies(env, m) <==> !AllSpace(m.listID)
  {
    PlainIsForm(s);
    PlainIsNoReply(s);
    TrimmedIsFixed(s);
    AllSpaceTrims(m.topic);
    BlankIsSpace(m.listID);
    if AllSpace(m.listID) {
      AllSpaceTrims(m.listID);
    }
    assert TrimSpace("") == "";
    hide TrimSpace, NormalForm, LooksReply, Plain;
  }

  /** A topic that says something speaks before the subject. */
  lemma TopicSpeaks(env: Env, m: Msg, t: string)
    requires !AllSpace(m.topic) && t != "" && Plain(t) && NormalForm(env.decode(m.topic)) == t
    ensures HintSubject(env, m) == t && HintApplies(env, m)
  {
    TrimmedIsFixed(t);
    BlankIsSpace(m.topic);
    hide TrimSpace, NormalForm, LooksReply, Plain;
  }

  // ----- when hints meet -----

  /** The subject a hint is made from. */
  function HintBase(subject: string): string {
    if NormalForm(subject) == "" then "untitled" else NormalForm(subject)
  }

  /** A first part, and those of two others that are there. */
  function Present(x: string, some: bool, a: string, more: bool, b: string): seq<string> {
    if some then if more then [x, a, b] else [x, a] else if more then [x, b] else [x]
  }

  function HintParts(subject: string, people: seq<string>, list: string): seq<string> {
    Present(HintBase(subject), people != [], Join(people, ","), list != "", "list:" + list)
  }

  lemma HintIsJoined(env: Env, subject: string, participants: seq<string>, listID: string)
    ensures HintThread(env, subject, participants, listID) == "hint:" + env.hash("hint:"
      + Join(HintParts(subject, env.people(Join(participants, ", ")), ToLower(TrimSpace(listID))), "|"))
  {
    var base, people := HintBase(subject), env.people(Join(participants, ", "));
    var list := ToLower(TrimSpace(listID));
    hide TrimSpace, NormalForm;
    var pa, pb := if people == [] then "" else "|" + Join(people, ","), if list == "" then "" else "|list:" + list;
    PartsJoined(subject, people, list);
    Assembled(base, pa, pb);
    hide Join, HintParts;
  }

  lemma PartsJoined(subject: string, people: seq<string>, list: string)
    ensures Join(HintParts(subject, people, list), "|") == HintBase(subject)
      + (if people == [] then "" else "|" + Join(people, ",")) + (if list == "" then "" else "|list:" + list)
  {
    hide HintBase, Join, Present;
    PresentJoined(HintBase(subject), people != [], Join(people, ","), list != "", "list:" + list);
    assert "|" + ("list:" + list) == "|list:" + list;
  }

  lemma PresentJoined(x: string, some: bool, a: string, more: bool, b: string)
    ensures Join(Present(x, some, a, more, b), "|") ==
      x + (if some then "|" + a else "") + (if more then "|" + b else "")
  {
    JoinFew(x, a, b);
    JoinFew(x, b, "");
    hide Join;
    if some {
      assert x + ("|" + a) + "" == x + "|" + a;
    } else {
      assert x + "" + "" == x && x + "" + ("|" + b) == x + "|" + b;
    }
  }

  lemma Assembled(base: string, a: string, b: string)
    ensures "hint:" + base + a + b == "hint:" + (base + a + b)
  {
  }

  lemma JoinFew(x: string, a: string, b: string)
    ensures Join([x], "|") == x && Join([x, a], "|") == x + "|" + a
    ensures Join([x, a, b], "|") == x + ("|" + a) + ("|" + b)
  {
    assert [x, a][1..] == [a] && [x, a, b][1..] == [a, b] && [a, b][1..] == [b];
    assert Join([a, b], "|") == a + "|" + b;
  }

  /** Addresses and list ids that hint text can hold without confusion. */
  predicate Distinguishable(subject: string, people: seq<string>, list: string) {
    && '|' !in HintBase(subject) && '|' !in list && FreeOf(people, '|') && FreeOf(people, ',')
    && forall i :: 0 <= i < |people| ==> people[i] != "" && !("list:" <= people[i])
  }

  lemma {:induction false} JoinedPeople(people: seq<string>)
    requires people != [] && FreeOf(people, '|') && people[0] != "" && !("list:" <= people[0]) && FreeOf(people, ',')
    ensures '|' !in Join(people, ",") && !("list:" <= Join(people, ","))
  {
    CommaFree(people);
    if |people| > 1 {
      var rest := Join(people[1..], ",");
      assert Join(people, ",") == people[0] + ("," + rest);
      if "list:" <= Join(people, ",") {
        ListComesFirst(people[0], rest);
      }
    }
  }

  lemma ListComesFirst(p: string, rest: string)
    requires "list:" <= p + ("," + rest)
    ensures "list:" <= p
  {
    var s := p + ("," + rest);
    assert forall i :: 0 <= i < 5 ==> s[i] == "list:"[i] && s[i] != ',';
    assert s[|p|] == ',';
    assert |p| >= 5 && p[..5] == s[..5];
  }

  lemma {:induction false} CommaFree(people: seq<string>)
    requires FreeOf(people, '|')
    ensures '|' !in Join(people, ",")
  {
    if |people| > 1 {
      CommaFree(people[1..]);
    }
  }

  lemma PartsFree(subject: string, people: seq<string>, list: string)
    requires Distinguishable(subject, people, list)
    ensures FreeOf(HintParts(subject, people, list), '|')
    ensures people != [] ==> !("list:" <= Join(people, ","))
  {
    if people != [] {
      JoinedPeople(people);
    }
    assert '|' !in "list:" + list;
    var base, a, b := HintBase(subject), Join(people, ","), "list:" + list;
    hide Join, HintBase, FreeOf;
    FreeFew(base, a, b, '|');
  }

  lemma FreeFew(x: string, a: string, b: string, c: char)
    requires c !in x && c !in b
    ensures FreeOf([x], c) && FreeOf([x, b], c) && (c !in a ==> FreeOf([x, a], c) && FreeOf([x, a, b], c))
  {
  }

  /** Messages without a parent share a thread exactly when the forms of their subjects, their participants and their
      lists agree. */
  lemma HintsMeet(env: Env, s: string, ps: seq<string>, l: string, t: string, qs: seq<string>, k: string)
    requires forall x, y :: env.hash(x) == env.hash(y) ==> x == y
    requires Distinguishable(s, env.people(Join(ps, ", ")), ToLower(TrimSpace(l)))
    requires Distinguishable(t, env.people(Join(qs, ", ")), ToLower(TrimSpace(k)))
    ensures HintThread(env, s, ps, l) == HintThread(env, t, qs, k) <==>
      && HintBase(s) == HintBase(t) && env.people(Join(ps, ", ")) == env.people(Join(qs, ", "))
      && EqualFold(TrimSpace(l), TrimSpace(k))
  {
    hide *;
    var people, others := env.people(Join(ps, ", ")), env.people(Join(qs, ", "));
    var list, other := ToLower(TrimSpace(l)), ToLower(TrimSpace(k));
    HintIsJoined(env, s, ps, l);
    HintIsJoined(env, t, qs, k);
    PartsFree(s, people, list);
    PartsFree(t, others, other);
    var a, b := HintParts(s, people, list), HintParts(t, others, other);
    var x, y := "hint:" + Join(a, "|"), "hint:" + Join(b, "|");
    Prefixed("hint:", env.hash(x), env.hash(y));
    Prefixed("hint:", Join(a, "|"), Join(b, "|"));
    FoldMeans(TrimSpace(l), TrimSpace(k));
    SameParts(s, people, list, t, others, other);
    if Join(a, "|") == Join(b, "|") {
      JoinInjective(a, b, '|');
    }
  }

  lemma FoldMeans(a: string, b: string)
    ensures EqualFold(a, b) <==> ToLower(a) == ToLower(b)
  {
  }

  lemma Prefixed(p: string, x: string, y: string)
    ensures p + x == p + y <==> x == y
  {
    assert (p + x)[|p|..] == x && (p + y)[|p|..] == y;
  }

  /** What the parts of a hint tell. */
  lemma PartsTell(s: string, people: seq<string>, list: string)
    requires people != [] ==> !("list:" <= Join(people, ","))
    ensures var a := HintParts(s, people, list); var at := if people == [] then 1 else 2;
      && a != [] && a[0] == HintBase(s)
      && (people != [] <==> |a| > 1 && !("list:" <= a[1]))
      && (people != [] ==> a[1] == Join(people, ","))
      && (list != "" <==> |a| > at) && (list != "" ==> a[at] == "list:" + list)
  {
    hide HintBase, Join;
  }

  lemma SameParts(s: string, people: seq<string>, list: string, t: string, others: seq<string>, other: string)
    requires Distinguishable(s, people, list) && Distinguishable(t, others, other)
    requires people != [] ==> !("list:" <= Join(people, ","))
    requires others != [] ==> !("list:" <= Join(others, ","))
    ensures HintParts(s, people, list) == HintParts(t, others, other) <==>
      HintBase(s) == HintBase(t) && people == others && list == other
    ensures HintParts(s, people, list) != [] && HintParts(t, others, other) != []
  {
    PartsTell(s, people, list);
    PartsTell(t, others, other);
    if HintParts(s, people, list) == HintParts(t, others, other) {
      hide HintBase, Join, HintParts;
      if people != [] {
        JoinInjective(people, others, ',');
      }
      if list != "" {
        Prefixed("list:", list, other);
      }
    }
  }
}
