/** What a subject normal form is, and not only when two are equal: its words are those of the settled subject, a
    plain subject is its own form, and so plain subjects that differ stay apart. */
module SubjectForms {
  import opened Text
  import opened Subject
  import opened SubjectConfluence

  // ----- words -----

  predicate Word(w: string) {
    w != "" && forall i :: 0 <= i < |w| ==> !IsSpace(w[i])
  }

  predicate Words(ws: seq<string>) {
    forall i :: 0 <= i < |ws| ==> Word(ws[i])
  }

  lemma {:induction false} WordLengthOf(w: string, rest: string)
    requires (forall i :: 0 <= i < |w| ==> !IsSpace(w[i])) && (rest == "" || IsSpace(rest[0]))
    ensures WordLength(w + rest) == |w|
  {
    if w == "" {
      assert w + rest == rest;
    } else {
      assert (w + rest)[1..] == w[1..] + rest;
      WordLengthOf(w[1..], rest);
    }
  }

  lemma FieldsFirst(w: string, rest: string)
    requires Word(w) && (rest == "" || IsSpace(rest[0]))
    ensures Fields(w + rest) == [w] + Fields(rest)
  {
    WordLengthOf(w, rest);
    assert (w + rest)[..|w|] == w && (w + rest)[|w|..] == rest && (w + rest)[0] == w[0];
  }

  /** Words set apart by single spaces are read back. */
  lemma {:induction false} FieldsOfJoin(ws: seq<string>)
    requires Words(ws)
    ensures Fields(Join(ws, " ")) == ws
  {
    if ws != [] {
      assert Word(ws[0]);
      if |ws| == 1 {
        FieldsFirst(ws[0], "");
        assert ws[0] + "" == ws[0] && [ws[0]] + [] == ws;
      } else {
        var rest := Join(ws[1..], " ");
        FieldsOfJoin(ws[1..]);
        FieldsFirst(ws[0], " " + rest);
        assert ws[0] + " " + rest == ws[0] + (" " + rest) && (" " + rest)[1..] == rest;
        assert [ws[0]] + ws[1..] == ws;
      }
    }
  }

  lemma {:induction false} WordAtStart(s: string)
    ensures forall i :: 0 <= i < WordLength(s) ==> !IsSpace(s[i])
    ensures WordLength(s) < |s| ==> IsSpace(s[WordLength(s)])
  {
    if s != "" && !IsSpace(s[0]) {
      WordAtStart(s[1..]);
      assert forall i :: 1 <= i < |s| ==> s[i] == s[1..][i - 1];
    }
  }

  lemma {:induction false} FieldsAreWords(s: string)
    ensures Words(Fields(s))
    decreases |s|
  {
    if s != "" {
      if IsSpace(s[0]) {
        FieldsAreWords(s[1..]);
      } else {
        var n := WordLength(s);
        WordAtStart(s);
        FieldsAreWords(s[n..]);
        assert Word(s[..n]);
      }
    }
  }

  lemma {:induction false} WithoutSpaceWord(w: string)
    requires forall i :: 0 <= i < |w| ==> !IsSpace(w[i])
    ensures WithoutSpace(w) == w
  {
    if w != "" {
      WithoutSpaceWord(w[1..]);
    }
  }

  lemma {:induction false} JoinVisible(ws: seq<string>)
    requires Words(ws)
    ensures WithoutSpace(Join(ws, " ")) == Join(ws, "")
  {
    if ws != [] {
      assert Word(ws[0]);
      WithoutSpaceWord(ws[0]);
      if |ws| > 1 {
        JoinVisible(ws[1..]);
        WithoutSpaceAppend(ws[0] + " ", Join(ws[1..], " "));
        WithoutSpaceAppend(ws[0], " ");
        assert WithoutSpace(" ") == "" by { WithoutSpaceBlank(" "); }
        assert ws[0] + "" == ws[0];
      }
    }
  }

  lemma JoinFirst(w: string, ws: seq<string>)
    ensures Join([w] + ws, "") == w + Join(ws, "")
  {
    assert ([w] + ws)[1..] == ws;
    if ws == [] {
      assert Join(ws, "") == "";
    }
  }

  lemma {:induction false} FieldsVisible(s: string)
    ensures Join(Fields(s), "") == WithoutSpace(s)
    decreases |s|
  {
    if s != "" {
      if IsSpace(s[0]) {
        FieldsVisible(s[1..]);
      } else {
        var n := WordLength(s);
        WordAtStart(s);
        FieldsVisible(s[n..]);
        JoinFirst(s[..n], Fields(s[n..]));
        WithoutSpaceWord(s[..n]);
        WithoutSpaceAppend(s[..n], s[n..]);
        assert s == s[..n] + s[n..];
        hide WithoutSpace, Join;
      }
    }
  }

  // ----- single spacing -----

  /** No outer white space, and inside only single spaces. */
  predicate SpacedOnce(s: string) {
    Trimmed(s) && forall i :: 0 <= i < |s| && IsSpace(s[i]) ==> s[i] == ' ' && i + 1 < |s| && !IsSpace(s[i + 1])
  }

  lemma {:induction false} JoinSpacedOnce(ws: seq<string>)
    requires Words(ws)
    ensures SpacedOnce(Join(ws, " ")) && (ws != [] ==> Join(ws, " ") != "" && Join(ws, " ")[0] == ws[0][0])
  {
    if ws != [] {
      assert Word(ws[0]);
      var w := ws[0];
      if |ws| > 1 {
        JoinSpacedOnce(ws[1..]);
        assert Word(ws[1]);
        var rest := Join(ws[1..], " ");
        var s := w + " " + rest;
        assert Join(ws, " ") == s && !IsSpace(rest[0]);
        forall i | 0 <= i < |s| && IsSpace(s[i]) ensures s[i] == ' ' && i + 1 < |s| && !IsSpace(s[i + 1]) {
          if i > |w| {
            assert s[i] == rest[i - |w| - 1];
          }
        }
        assert s[|s| - 1] == rest[|rest| - 1];
      }
    }
  }

  lemma SpacedRest(s: string, n: nat)
    requires SpacedOnce(s) && n == WordLength(s) < |s| && s != ""
    ensures s[n] == ' ' && IsSpace(' ') && Word(s[..n])
    ensures s[n + 1..] != "" && SpacedOnce(s[n + 1..]) && Trimmed(s[n + 1..])
  {
    WordAtStart(s);
    var rest := s[n + 1..];
    assert forall i :: 0 <= i < |rest| ==> rest[i] == s[n + 1 + i];
  }

  lemma FieldsBlank(rest: string)
    ensures Fields(" " + rest) == Fields(rest)
    ensures rest != "" && Trimmed(rest) ==> Fields(rest) != []
  {
    assert (" " + rest)[1..] == rest;
  }

  /** Text that is spaced once is its own words, set apart by spaces. */
  lemma {:induction false} SpacedOnceStays(s: string)
    requires SpacedOnce(s)
    ensures SingleSpaced(s) == s
    decreases |s|
  {
    if s == "" {
      assert SingleSpaced("") == "";
    } else {
      hide *;
      var n := WordLength(s);
      if n == |s| {
        OneWord(s);
      } else {
        var w, rest := s[..n], s[n + 1..];
        SpacedRest(s, n);
        SpacedOnceStays(rest);
        FieldsFirst(w, " " + rest);
        FieldsBlank(rest);
        CutAtSpace(s, n);
        SpacedWord(w, rest);
      }
    }
  }

  lemma CutAtSpace(s: string, n: nat)
    requires n < |s| && s[n] == ' '
    ensures s == s[..n] + (" " + s[n + 1..]) && (" " + s[n + 1..])[0] == ' '
  {
  }

  lemma OneWord(s: string)
    requires s != "" && WordLength(s) == |s|
    ensures SingleSpaced(s) == s
  {
    WordAtStart(s);
    FieldsFirst(s, "");
    assert s + "" == s && Fields("") == [] && [s] + [] == [s];
  }

  lemma SpacedWord(w: string, rest: string)
    requires Fields(w + (" " + rest)) == [w] + Fields(rest) && Fields(rest) != [] && SingleSpaced(rest) == rest
    ensures SingleSpaced(w + (" " + rest)) == w + (" " + rest)
  {
    hide Fields;
    assert ([w] + Fields(rest))[1..] == Fields(rest);
    assert w + " " + rest == w + (" " + rest);
  }

  /** Single spacing keeps the words, in order, and all that is visible. */
  lemma SpacingKeepsText(s: string)
    ensures SpacedOnce(SingleSpaced(s))
    ensures Fields(SingleSpaced(s)) == Fields(s) && WithoutSpace(SingleSpaced(s)) == WithoutSpace(s)
  {
    FieldsAreWords(s);
    FieldsVisible(s);
    hide Fields, Join, WithoutSpace, Words;
    FieldsOfJoin(Fields(s));
    JoinVisible(Fields(s));
    JoinSpacedOnce(Fields(s));
  }

  // ----- normal forms -----

  lemma {:induction false} SettleIsPiece(s: string)
    ensures Piece(Settle(s), s)
    decreases |s|
  {
    if s == "" {
      DropIsPiece(s, 0, 0);
    } else {
      PassShortens(s);
      if Pass(s) == s {
        DropIsPiece(s, 0, |s|);
        assert s[0..|s|] == s;
      } else {
        PassIsPiece(s);
        hide Pass, Piece;
        SettleIsPiece(Pass(s));
        PieceTransitive(Settle(Pass(s)), Pass(s), s);
      }
    }
  }

  /** The form of a subject: an unbroken piece of it, without regard to case, spaced once and otherwise unchanged. */
  lemma FormKeepsText(subject: string)
    ensures var form, settled := NormalForm(subject), Settle(TrimSpace(ToLower(subject)));
      && SpacedOnce(form) && Fields(form) == Fields(settled) && WithoutSpace(form) == WithoutSpace(settled)
      && Piece(settled, ToLower(subject))
  {
    hide Settle, TrimSpace, SingleSpaced, Fields, WithoutSpace, Piece;
    var low := ToLower(subject);
    SpacingKeepsText(Settle(TrimSpace(low)));
    SettleIsPiece(TrimSpace(low));
    TrimIsPiece(low);
    PieceTransitive(Settle(TrimSpace(low)), TrimSpace(low), low);
  }

  /** A subject in lower case, spaced once, with no tag, marker or trailer. */
  predicate Plain(s: string) {
    ToLower(s) == s && SpacedOnce(s) && LeftLength(s) == 0 && TrailerLength(s) == 0
  }

  lemma PlainSettles(s: string)
    requires Trimmed(s) && LeftLength(s) == 0 && TrailerLength(s) == 0
    ensures Settle(s) == s
  {
    SettleIsForm(s);
    hide LeftLength, TrailerLength, TrimSpace;
  }

  /** It is its own normal form. */
  lemma PlainIsForm(s: string)
    requires Plain(s)
    ensures NormalForm(s) == s
  {
    TrimmedIsFixed(s);
    PlainSettles(s);
    SpacedOnceStays(s);
    hide TrimSpace, Settle, SingleSpaced;
  }

  ghost predicate Dressed(markers: seq<string>, trailers: seq<string>) {
    && (forall m :: m in markers ==> Recognised(m))
    && (forall w :: w in trailers ==> ToLower(w) == FWD || ToLower(w) == FW)
  }

  /** However a plain subject is dressed up, its form is the plain subject; so replies and forwards meet, and different
      subjects stay apart. */
  lemma DressedForms(markers: seq<string>, s: string, trailers: seq<string>, others: seq<string>, t: string,
      ends: seq<string>)
    requires Plain(s) && Plain(t) && Dressed(markers, trailers) && Dressed(others, ends)
    ensures NormalForm(Join(markers, "") + (s + Join(trailers, ""))) == s
    ensures var a, b := Join(markers, "") + (s + Join(trailers, "")), Join(others, "") + (t + Join(ends, ""));
      NormalForm(a) == NormalForm(b) <==> s == t
  {
    PlainIsForm(s);
    PlainIsForm(t);
    hide NormalForm, Plain, Recognised;
    SubjectConfluent(markers, s, trailers);
    SubjectConfluent(others, t, ends);
  }

  // ----- which markers there are -----

  predicate RegexBlank(s: string) {
    forall i :: 0 <= i < |s| ==> RegexSpace(s[i])
  }

  lemma {:induction false} TrimBlanksSplits(s: string) returns (a: string, b: string)
    ensures s == a + TrimBlanks(s) + b && RegexBlank(a) && RegexBlank(b)
    decreases |s|
  {
    if s != "" && RegexSpace(s[0]) {
      a, b := TrimBlanksSplits(s[1..]);
      assert s == [s[0]] + s[1..];
      a := [s[0]] + a;
    } else if s != "" && RegexSpace(s[|s| - 1]) {
      a, b := TrimBlanksSplits(s[..|s| - 1]);
      assert s == s[..|s| - 1] + [s[|s| - 1]];
      b := b + [s[|s| - 1]];
    } else {
      a, b := "", "";
    }
  }

  lemma {:induction false} TrimBlanksPadded(a: string, u: string, b: string)
    requires RegexBlank(a) && RegexBlank(b) && (u == "" || (!RegexSpace(u[0]) && !RegexSpace(u[|u| - 1])))
    ensures TrimBlanks(a + u + b) == u
    decreases |a| + |b|
  {
    var s := a + u + b;
    if a != "" {
      assert s[1..] == a[1..] + u + b;
      TrimBlanksPadded(a[1..], u, b);
    } else if b != "" {
      var n := |b| - 1;
      assert s[..|s| - 1] == a + u + b[..n];
      if u == "" {
        assert s[1..] == a + u + b[1..];
        TrimBlanksPadded(a, u, b[1..]);
      } else {
        TrimBlanksPadded(a, u, b[..n]);
      }
    } else {
      assert s == u;
    }
  }

  /** Nothing, or digits in brackets. */
  predicate Count(c: string) {
    c == "" || (|c| >= 3 && c[0] == '[' && c[|c| - 1] == ']' && forall i :: 0 < i < |c| - 1 ==> '0' <= c[i] <= '9')
  }

  const LATIN_MARKERS := {"re", "aw", "sv", "wg", "fw", "fwd"}
  const CJK_MARKERS := {"\U{56DE}\U{590D}", "\U{7B54}\U{590D}", "\U{8F6C}\U{53D1}"}

  predicate LatinMark(body: string, w: string, u: string, a: string, c: string, b: string) {
    && w in LATIN_MARKERS && |u| == |w| && BeginsWithWord(u, w)
    && RegexBlank(a) && Count(c) && RegexBlank(b) && body == u + (a + c + b)
  }

  /** A marker without its colon: a word, blanks and, behind a Latin word, perhaps a count and blanks. */
  ghost predicate Marks(body: string) {
    || (exists w, u, a, c, b :: LatinMark(body, w, u, a, c, b))
    || (exists w, a :: w in CJK_MARKERS && RegexBlank(a) && body == w + a)
  }

  lemma MarkerWords()
    ensures forall w :: w in LATIN_MARKERS <==> w in REPLY_WORDS
    ensures forall w :: w in CJK_MARKERS <==> w in CJK_WORDS
  {
    assert REPLY_WORDS[0] == "re" && REPLY_WORDS[1] == "aw" && REPLY_WORDS[2] == "sv" && REPLY_WORDS[3] == "wg"
      && REPLY_WORDS[4] == "fw" && REPLY_WORDS[5] == "fwd";
    assert CJK_WORDS[0] == "\U{56DE}\U{590D}" && CJK_WORDS[1] == "\U{7B54}\U{590D}"
      && CJK_WORDS[2] == "\U{8F6C}\U{53D1}";
  }

  lemma CountIsCounter(a: string, c: string, b: string)
    requires RegexBlank(a) && Count(c) && RegexBlank(b)
    ensures Counter(a + c + b)
  {
    TrimBlanksPadded(a, c, b);
  }

  lemma BlankTrimsOff(a: string)
    requires RegexBlank(a)
    ensures TrimBlanks(a) == ""
  {
    TrimBlanksPadded(a, "", "");
    assert a + "" + "" == a;
  }

  lemma MarkedBody(body: string)
    requires Marks(body)
    ensures MarkerBody(body)
  {
    MarkerWords();
    hide LATIN_MARKERS, CJK_MARKERS, REPLY_WORDS, CJK_WORDS;
    if w, u, a, c, b :| LatinMark(body, w, u, a, c, b) {
      CountIsCounter(a, c, b);
      assert body[|w|..] == a + c + b && BeginsWithWord(body, w);
    } else {
      var w, a :| w in CJK_MARKERS && RegexBlank(a) && body == w + a;
      BlankTrimsOff(a);
      assert body[|w|..] == a && w <= body;
    }
  }

  lemma BodyMarks(body: string)
    requires MarkerBody(body)
    ensures Marks(body)
  {
    MarkerWords();
    hide LATIN_MARKERS, CJK_MARKERS, REPLY_WORDS, CJK_WORDS;
    if w :| w in REPLY_WORDS && BeginsWithWord(body, w) && Counter(body[|w|..]) {
      LatinBody(body, w);
    } else {
      var w :| w in CJK_WORDS && w <= body && TrimBlanks(body[|w|..]) == "";
      var a, b := TrimBlanksSplits(body[|w|..]);
      assert RegexBlank(a + b) && body == w + (a + b);
    }
  }

  lemma LatinBody(body: string, w: string)
    requires w in LATIN_MARKERS && BeginsWithWord(body, w) && Counter(body[|w|..])
    ensures Marks(body)
  {
    hide LATIN_MARKERS, CJK_MARKERS;
    var u, t := body[..|w|], body[|w|..];
    var a, b := TrimBlanksSplits(t);
    assert BeginsWithWord(u, w) && Count(TrimBlanks(t));
    hide TrimBlanks, BeginsWithWord, Count, RegexBlank;
    assert body == u + (a + TrimBlanks(t) + b);
    assert LatinMark(body, w, u, a, TrimBlanks(t), b);
  }

  /** Text up to a colon is a marker exactly when it is one of the nine words, with blanks and a count as allowed. */
  lemma MarkersExact(body: string, s: string)
    requires ':' !in body
    ensures MarkerLength(body + ":" + s) == if Marks(body) then |body| + 1 else 0
  {
    var t := body + ":" + s;
    var colon := IndexOf(t, ':');
    assert t[|body|] == ':';
    assert colon.Some? && colon.value == |body| by {
      assert forall i :: 0 <= i < |body| ==> t[i] == body[i];
    }
    assert t[..|body|] == body;
    hide MarkerBody, Marks, IndexOf;
    if Marks(body) {
      MarkedBody(body);
    } else if MarkerBody(body) {
      BodyMarks(body);
    }
  }

  /** A letter of a marker matches itself, its capital, and for s the long s. */
  lemma FoldsExactly(c: char, i: nat)
    requires i < 26
    ensures FoldsTo(c, ('a' as int + i) as char) <==>
      c == ('a' as int + i) as char || c == ('A' as int + i) as char || (i == 18 && c == '\U{17F}')
  {
  }

  /** A bracket is a tag exactly when it holds 1 to 40 characters and no bracket. */
  lemma TagsExact(t: string, s: string)
    requires ']' !in t
    ensures TagLength("[" + t + "]" + s) == if 1 <= |t| <= 40 && '[' !in t then |t| + 2 else 0
  {
    var all := "[" + t + "]" + s;
    var end := IndexOf(all, ']');
    assert all[|t| + 1] == ']';
    assert forall i :: 0 < i <= |t| ==> all[i] == t[i - 1];
    assert end.Some? && end.value == |t| + 1;
    assert all[1..|t| + 1] == t;
    hide IndexOf;
  }

  /** The trailers are `(fwd)` and `(fw)`. */
  lemma TrailersExact(s: string)
    ensures TrailerLength(s) == if HasSuffix(s, "(fwd)") then 5 else if HasSuffix(s, "(fw)") then 4 else 0
  {
  }
}
