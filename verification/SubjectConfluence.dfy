/** The subject normal form does not depend on reply markers, list tags or forward trailers.
    One step on the left end of a subject commutes with one step on its right end, so the
    order in which the loop removes things does not matter. */
module SubjectConfluence {
  import opened Text
  import opened Subject

  /** The tag or marker at the start, without blanks. */
  function LeftLength(s: string): (n: nat)
    ensures n <= |s| && (n > 0 ==> s[n - 1] == ']' || s[n - 1] == ':')
  {
    if TagLength(s) > 0 then TagLength(s) else MarkerLength(s)
  }

  function LeftStep(s: string): string {
    if LeftLength(s) == 0 then s else TrimSpace(s[LeftLength(s)..])
  }

  function RightStep(s: string): string {
    if TrailerLength(s) == 0 then s else TrimSpace(StripTrailer(s))
  }

  lemma StepsShorten(s: string)
    ensures |LeftStep(s)| < |s| || LeftStep(s) == s
    ensures |RightStep(s)| < |s| || RightStep(s) == s
  {
    hide TrimSpace, LeftLength, TrailerLength;
    var n := LeftLength(s);
    var i, j := TrimSpaceSplits(s[n..]);
    var k, l := TrimSpaceSplits(StripTrailer(s));
  }

  function LeftForm(s: string): string
    decreases |s|
  {
    StepsShorten(s);
    if LeftStep(s) == s then s else LeftForm(LeftStep(s))
  }

  function RightForm(s: string): string
    decreases |s|
  {
    StepsShorten(s);
    if RightStep(s) == s then s else RightForm(RightStep(s))
  }

  function Form(s: string): string {
    RightForm(LeftForm(s))
  }

  // ----- left matches only look at what they match -----

  lemma {:induction false} IndexOfPrefix(p: string, s: string, c: char)
    requires p <= s
    ensures IndexOf(p, c).Some? ==> IndexOf(s, c) == IndexOf(p, c)
    ensures IndexOf(s, c).Some? && IndexOf(s, c).value < |p| ==> IndexOf(p, c) == IndexOf(s, c)
  {
    if p != "" && p[0] != c {
      IndexOfPrefix(p[1..], s[1..], c);
    }
  }

  lemma LeftLengthPrefix(p: string, s: string)
    requires p <= s
    ensures LeftLength(p) > 0 ==> LeftLength(s) == LeftLength(p)
    ensures LeftLength(s) <= |p| ==> LeftLength(p) == LeftLength(s)
  {
    TagLengthPrefix(p, s);
    MarkerLengthPrefix(p, s);
    hide TagLength, MarkerLength;
    if LeftLength(p) > 0 && TagLength(p) == 0 {
      TagOrMarker(s);
    }
  }

  lemma TagLengthPrefix(p: string, s: string)
    requires p <= s
    ensures TagLength(p) > 0 ==> TagLength(s) == TagLength(p)
    ensures TagLength(s) <= |p| ==> TagLength(p) == TagLength(s)
  {
    IndexOfPrefix(p, s, ']');
    hide IndexOf;
    var e := IndexOf(s, ']');
    if e.Some? && e.value < |p| && 1 <= e.value {
      assert p[1..e.value] == s[1..e.value];
    }
  }

  lemma MarkerLengthPrefix(p: string, s: string)
    requires p <= s
    ensures MarkerLength(p) > 0 ==> MarkerLength(s) == MarkerLength(p)
    ensures MarkerLength(s) <= |p| ==> MarkerLength(p) == MarkerLength(s)
  {
    IndexOfPrefix(p, s, ':');
    hide IndexOf, MarkerBody;
    var e := IndexOf(s, ':');
    if e.Some? && e.value < |p| {
      assert p[..e.value] == s[..e.value];
    }
  }

  /** A marker begins with a letter, so a subject that begins with a bracket has none. */
  lemma TagOrMarker(s: string)
    ensures TagLength(s) == 0 || MarkerLength(s) == 0
  {
    if TagLength(s) > 0 && MarkerLength(s) > 0 {
      var body := s[..MarkerLength(s) - 1];
      BodyBeginsWithLetter(body);
    }
  }

  lemma BodyBeginsWithLetter(body: string)
    requires MarkerBody(body)
    ensures body != "" && body[0] != '['
  {
    WordStarts();
    hide Counter, TrimBlanks;
    if w :| w in REPLY_WORDS && BeginsWithWord(body, w) && Counter(body[|w|..]) {
      assert FoldsTo(body[0], w[0]);
    } else {
      var v :| v in CJK_WORDS && v <= body && TrimBlanks(body[|v|..]) == "";
    }
  }

  lemma WordStarts()
    ensures forall w :: w in REPLY_WORDS ==> |w| >= 2 && 'a' <= w[0] <= 'z'
    ensures forall w :: w in CJK_WORDS ==> |w| == 2 && w[0] > '\U{100}'
  {
    forall i | 0 <= i < |REPLY_WORDS| ensures |REPLY_WORDS[i]| >= 2 && 'a' <= REPLY_WORDS[i][0] <= 'z' {
    }
    forall i | 0 <= i < |CJK_WORDS| ensures |CJK_WORDS[i]| == 2 && CJK_WORDS[i][0] > '\U{100}' {
    }
  }

  // ----- the two ends do not interfere -----

  /** Trimming a suffix of a trimmed string only cuts blanks in front. */
  lemma TrimSuffix(s: string, k: nat) returns (q: nat)
    requires Trimmed(s) && k <= |s|
    ensures k <= q <= |s| && TrimSpace(s[k..]) == s[q..] && AllSpace(s[k..q])
  {
    var t := s[k..];
    var i, j := TrimSpaceSplits(t);
    if j == |t| {
      q := k + i;
      assert t[i..j] == s[q..] && t[..i] == s[k..q];
    } else {
      assert false;
    }
  }

  /** Trimming a prefix of a trimmed string only cuts blanks behind. */
  lemma TrimPrefix(s: string, n: nat) returns (m: nat)
    requires Trimmed(s) && n <= |s|
    ensures m <= n && TrimSpace(s[..n]) == s[..m] && AllSpace(s[m..n])
  {
    var t := s[..n];
    var i, j := TrimSpaceSplits(t);
    if i == 0 {
      m := j;
      assert t[0..j] == s[..m] && t[j..] == s[m..n];
    } else {
      assert false;
    }
  }

  predicate TrailerText(t: string) {
    t != "" && t[0] == '(' && forall i :: 0 <= i < |t| ==> t[i] != ']' && t[i] != ':'
  }

  lemma TrailerTexts()
    ensures TrailerText(FWD) && TrailerText(FW)
  {
  }

  lemma SuffixText(s: string, t: string)
    requires HasSuffix(s, t) && TrailerText(t)
    ensures s[|s| - |t|] == '(' && forall i :: |s| - |t| <= i < |s| ==> s[i] != ']' && s[i] != ':'
  {
    var tail := s[|s| - |t|..];
    forall i | |s| - |t| <= i < |s| ensures s[i] == t[i - (|s| - |t|)] {
      assert s[i] == tail[i - (|s| - |t|)];
    }
    assert tail[0] == t[0];
  }

  lemma TrailerFacts(s: string)
    ensures var r := TrailerLength(s);
      r > 0 ==> s[|s| - r] == '(' && forall i :: |s| - r <= i < |s| ==> s[i] != ']' && s[i] != ':'
  {
    TrailerTexts();
    hide TrailerText, HasSuffix;
    if HasSuffix(s, FWD) {
      SuffixText(s, FWD);
    } else if HasSuffix(s, FW) {
      SuffixText(s, FW);
    }
  }

  lemma TrailerOfSuffix(s: string, q: nat)
    requires q <= |s|
    ensures q <= |s| - TrailerLength(s) ==> TrailerLength(s[q..]) == TrailerLength(s)
  {
    var t := s[q..];
    assert |FWD| <= |t| ==> t[|t| - |FWD|..] == s[|s| - |FWD|..];
    assert |FW| <= |t| ==> t[|t| - |FW|..] == s[|s| - |FW|..];
  }

  lemma CommuteWithoutTrailer(s: string)
    requires Trimmed(s) && TrailerLength(s) == 0
    ensures RightStep(LeftStep(s)) == LeftStep(s)
  {
    var q := TrimSuffix(s, LeftLength(s));
    LeftStepMeans(s);
    hide TrimSpace, LeftLength, TrailerLength, LeftStep;
    if LeftLength(s) > 0 {
      TrailerOfSuffix(s, q);
    }
  }

  /** A left match ends before the blanks in front of the trailer, and the blanks behind the
      match end before the trailer. */
  lemma EndsApart(s: string, k: nat, q: nat, m: nat, n: nat)
    requires 0 < k <= q <= |s| && m <= n < |s| && AllSpace(s[k..q]) && AllSpace(s[m..n])
    requires s[k - 1] == ']' || s[k - 1] == ':'
    requires s[n] == '(' && forall i :: n <= i < |s| ==> s[i] != ']' && s[i] != ':'
    ensures k <= m && q <= n
  {
    assert !IsSpace(']') && !IsSpace(':') && !IsSpace('(');
    hide IsSpace;
    assert forall i :: m <= i < n ==> IsSpace(s[i]) by {
      assert forall i :: m <= i < n ==> s[i] == s[m..n][i - m];
    }
    assert forall i :: k <= i < q ==> IsSpace(s[i]) by {
      assert forall i :: k <= i < q ==> s[i] == s[k..q][i - k];
    }
  }

  lemma CommuteBoth(s: string, k: nat, r: nat)
    requires Trimmed(s) && k == LeftLength(s) > 0 && r == TrailerLength(s) > 0
    ensures LeftStep(RightStep(s)) == RightStep(LeftStep(s))
  {
    hide TrimSpace, LeftLength, TrailerLength, LeftStep, StripTrailer;
    var n := |s| - r;
    var m := TrimPrefix(s, n);
    var q := TrimSuffix(s, k);
    TrailerFacts(s);
    EndsApart(s, k, q, m, n);
    LeftLengthPrefix(s[..m], s);
    TrailerOfSuffix(s, q);
    LeftStepMeans(s);
    LeftStepMeans(s[..m]);
    StripTrailerMeans(s, r);
    StripTrailerMeans(s[q..], r);
    assert s[..m][k..] == s[k..m];
    assert s[q..][..n - q] == s[q..n];
    SameTrim(s, k, q, m, n);
  }

  lemma StepsCommute(s: string)
    requires Trimmed(s)
    ensures LeftStep(RightStep(s)) == RightStep(LeftStep(s))
  {
    hide TrimSpace, LeftLength, TrailerLength, Trimmed;
    var k, r := LeftLength(s), TrailerLength(s);
    if r == 0 {
      CommuteWithoutTrailer(s);
      hide LeftStep;
    } else if k == 0 {
      CommuteWithoutMarker(s);
      hide LeftStep, RightStep;
    } else {
      hide LeftStep, RightStep;
      CommuteBoth(s, k, r);
    }
  }

  lemma CommuteWithoutMarker(s: string)
    requires Trimmed(s) && LeftLength(s) == 0 && TrailerLength(s) > 0
    ensures LeftStep(RightStep(s)) == RightStep(LeftStep(s))
  {
    hide TrimSpace, LeftLength, TrailerLength;
    var m := TrimPrefix(s, |s| - TrailerLength(s));
    LeftLengthPrefix(s[..m], s);
  }

  lemma LeftStepMeans(s: string)
    ensures LeftStep(s) == if LeftLength(s) == 0 then s else TrimSpace(s[LeftLength(s)..])
  {
  }

  lemma StripTrailerMeans(s: string, r: nat)
    requires TrailerLength(s) == r
    ensures r <= |s| && StripTrailer(s) == s[..|s| - r]
  {
  }

  lemma SameTrim(s: string, k: nat, q: nat, m: nat, n: nat)
    requires k <= q <= n <= |s| && k <= m <= n && AllSpace(s[k..q]) && AllSpace(s[m..n])
    ensures TrimSpace(s[k..m]) == TrimSpace(s[q..n])
  {
    hide TrimSpace;
    TrimIgnoresPadding("", s[k..m], s[m..n]);
    TrimIgnoresPadding(s[k..q], s[q..n], "");
    assert "" + s[k..m] + s[m..n] == s[k..n];
    assert s[k..q] + s[q..n] + "" == s[k..n];
  }

  // ----- the order of the steps does not matter -----

  lemma LeftStepTrimmed(s: string)
    requires Trimmed(s)
    ensures Trimmed(LeftStep(s)) && Trimmed(RightStep(s))
  {
    hide LeftLength, TrailerLength, Trimmed;
    TrimSpaceTrimmed(s[LeftLength(s)..]);
    TrimSpaceTrimmed(StripTrailer(s));
  }

  lemma {:induction false} LeftFormRightStep(s: string)
    requires Trimmed(s)
    ensures LeftForm(RightStep(s)) == RightStep(LeftForm(s))
    decreases |s|
  {
    hide LeftStep, RightStep, Trimmed;
    StepsCommute(s);
    StepsShorten(s);
    if LeftStep(s) != s {
      LeftStepTrimmed(s);
      LeftFormRightStep(LeftStep(s));
      StepsShorten(RightStep(s));
    }
  }

  lemma FormKept(s: string)
    requires Trimmed(s)
    ensures Form(LeftStep(s)) == Form(s)
    ensures Form(RightStep(s)) == Form(s)
  {
    hide LeftStep, RightStep, Trimmed;
    LeftFormRightStep(s);
    StepsShorten(s);
    StepsShorten(LeftForm(s));
  }

  /** What follows the first tag and the blanks behind it. */
  function AfterTag(s: string): string {
    var t := TagLength(s);
    s[t + BlankLength(s[t..])..]
  }

  lemma AfterTagStrip(s: string)
    requires TagLength(s) > 0
    ensures StripTags(s) == StripTags(AfterTag(s)) && |AfterTag(s)| < |s|
  {
    hide TagLength, BlankLength;
    var t := TagLength(s);
    var b := BlankLength(s[t..]);
    assert s[t + b..][TagsLength(s[t + b..])..] == s[t + b + TagsLength(s[t + b..])..];
  }

  lemma AfterTagStep(s: string)
    requires TagLength(s) > 0
    ensures LeftStep(s) == TrimSpace(AfterTag(s))
  {
    var t := TagLength(s);
    var b := BlankLength(s[t..]);
    hide TagLength, BlankLength, TrimSpace, MarkerLength;
    assert s[t..][..b] == s[t..t + b];
    TrimIgnoresPadding(s[t..t + b], s[t + b..], "");
    assert s[t..t + b] + s[t + b..] + "" == s[t..];
  }

  lemma AfterTagTrimmed(s: string)
    requires Trimmed(s) && TagLength(s) > 0 && TagLength(AfterTag(s)) > 0
    ensures Trimmed(AfterTag(s))
  {
    TagStartsVisible(AfterTag(s));
    hide TagLength, BlankLength, IsSpace;
  }

  /** Removing a whole run of tags is removing them one by one. */
  lemma {:induction false} TagsForm(s: string)
    requires Trimmed(s)
    ensures Trimmed(TrimSpace(StripTags(s)))
    ensures LeftForm(TrimSpace(StripTags(s))) == LeftForm(s)
    decreases |s|
  {
    TrimSpaceTrimmed(StripTags(s));
    if TagLength(s) == 0 {
      assert StripTags(s) == s;
      TrimmedIsFixed(s);
    } else {
      AfterTagStrip(s);
      AfterTagStep(s);
      StepsShorten(s);
      hide TrimSpace, TagsLength, LeftStep, TagLength, AfterTag, Trimmed;
      var rest := AfterTag(s);
      assert LeftForm(s) == LeftForm(TrimSpace(rest));
      if TagLength(rest) == 0 {
        assert StripTags(rest) == rest by { NoTags(rest); }
      } else {
        AfterTagTrimmed(s);
        TrimmedIsFixed(rest);
        TagsForm(rest);
      }
    }
  }

  lemma NoTags(s: string)
    requires TagLength(s) == 0
    ensures StripTags(s) == s
  {
  }

  lemma TagStartsVisible(s: string)
    ensures TagLength(s) > 0 ==> !IsSpace(s[0])
  {
  }

  lemma MarkerStep(s: string)
    requires MarkerLength(s) > 0
    ensures TrimSpace(StripMarker(s)) == LeftStep(s)
  {
    hide TagLength, BlankLength, TrimSpace, MarkerLength;
    TagOrMarker(s);
    var n := MarkerLength(s);
    var b := BlankLength(s[n..]);
    assert s[n..][..b] == s[n..n + b];
    CutBlanks(s, n, b);
  }

  lemma CutBlanks(s: string, n: nat, b: nat)
    requires n + b <= |s| && AllSpace(s[n..n + b])
    ensures TrimSpace(s[n..]) == TrimSpace(s[n + b..])
  {
    TrimIgnoresPadding(s[n..n + b], s[n + b..], "");
    assert s[n..n + b] + s[n + b..] + "" == s[n..];
  }

  lemma NoMarker(s: string)
    requires MarkerLength(s) == 0
    ensures StripMarker(s) == s
  {
  }

  lemma MarkerForm(s: string)
    requires Trimmed(s)
    ensures Trimmed(TrimSpace(StripMarker(s)))
    ensures Form(TrimSpace(StripMarker(s))) == Form(s)
    ensures MarkerLength(s) > 0 ==> TrimSpace(StripMarker(s)) == LeftStep(s)
    ensures MarkerLength(s) == 0 ==> TrimSpace(StripMarker(s)) == s
  {
    hide TrimSpace, MarkerLength, Form, Trimmed, StripMarker, LeftStep;
    TrimSpaceTrimmed(StripMarker(s));
    if MarkerLength(s) > 0 {
      MarkerStep(s);
      FormKept(s);
    } else {
      NoMarker(s);
      TrimmedIsFixed(s);
    }
  }

  lemma TrailerForm(s: string)
    requires Trimmed(s)
    ensures TrimSpace(StripTrailer(s)) == RightStep(s)
    ensures Form(TrimSpace(StripTrailer(s))) == Form(s)
  {
    hide TrimSpace, TrailerLength, Form, Trimmed;
    TrimmedIsFixed(s);
    FormKept(s);
    StripNothing(s);
    hide StripTrailer;
  }

  lemma StripNothing(s: string)
    ensures TrailerLength(s) == 0 ==> StripTrailer(s) == s
  {
    hide TrailerLength;
    assert s[..|s|] == s;
  }

  lemma PassKeepsForm(s: string)
    requires Trimmed(s)
    ensures Trimmed(Pass(s)) && Form(Pass(s)) == Form(s)
  {
    hide TrimSpace, Trimmed, StripTags, StripMarker, StripTrailer, LeftForm, RightForm;
    TagsForm(s);
    var u := TrimSpace(StripTags(s));
    MarkerForm(u);
    var v := TrimSpace(StripMarker(u));
    TrailerForm(v);
    TrimSpaceTrimmed(StripTrailer(v));
  }

  /** Where the loop stops, nothing can be removed at either end. */
  lemma FixedIsFinal(s: string)
    requires Trimmed(s) && Pass(s) == s
    ensures Form(s) == s
  {
    hide TrimSpace, Trimmed, TagsLength, StripMarker, StripTrailer, MarkerLength, TagLength, TrailerLength, LeftStep,
        RightStep;
    var u := TrimSpace(StripTags(s));
    var v := TrimSpace(StripMarker(u));
    TrimSpaceTrimmed(StripTags(s));
    TrimNoLonger(StripTags(s));
    MarkerForm(u);
    TrailerForm(v);
    StepsShorten(u);
    StepsShorten(v);
    assert |s| <= |v| <= |u| <= |s|;
    NoTagLeft(s);
    TrimmedIsFixed(s);
    assert u == s;
    StepsStrict(s);
    assert v == s;
    StepsShorten(s);
  }

  lemma StepsStrict(s: string)
    ensures if LeftLength(s) > 0 then |LeftStep(s)| < |s| else LeftStep(s) == s
    ensures if TrailerLength(s) > 0 then |RightStep(s)| < |s| else RightStep(s) == s
  {
    hide TrimSpace, LeftLength, TrailerLength;
    TrimNoLonger(s[LeftLength(s)..]);
    TrimNoLonger(StripTrailer(s));
  }

  lemma TrimNoLonger(s: string)
    ensures |TrimSpace(s)| <= |s|
  {
    var i, j := TrimSpaceSplits(s);
  }

  lemma NoTagLeft(s: string)
    requires |TrimSpace(StripTags(s))| == |s|
    ensures TagLength(s) == 0 && StripTags(s) == s
  {
    TrimNoLonger(StripTags(s));
  }

  lemma {:induction false} SettleIsForm(s: string)
    requires Trimmed(s)
    ensures Settle(s) == Form(s)
    decreases |s|
  {
    PassShortens(s);
    if s == "" {
      EmptyForm();
    } else if Pass(s) == s {
      FixedIsFinal(s);
    } else {
      PassKeepsForm(s);
      hide Trimmed, Pass, Form;
      SettleIsForm(Pass(s));
    }
  }

  lemma EmptyForm()
    ensures Form("") == ""
  {
    StepsShorten("");
  }

  // ----- main results -----

  /** A reply or forward marker or a list tag, perhaps with blanks behind it. The source
      lower-cases a subject before it looks for these. */
  predicate Recognised(m: string) {
    var low := ToLower(m);
    LeftLength(low) > 0 && AllSpace(low[LeftLength(low)..])
  }

  lemma LeftStartsVisible(s: string)
    requires LeftLength(s) > 0
    ensures !IsSpace(s[0]) && !IsSpace(s[LeftLength(s) - 1])
  {
    if TagLength(s) == 0 {
      BodyVisible(s[..MarkerLength(s) - 1]);
    }
  }

  lemma BodyVisible(body: string)
    requires MarkerBody(body)
    ensures body != "" && !IsSpace(body[0])
  {
    WordStarts();
    hide Counter, TrimBlanks;
    if w :| w in REPLY_WORDS && BeginsWithWord(body, w) && Counter(body[|w|..]) {
      assert FoldsTo(body[0], w[0]);
    } else {
      var v :| v in CJK_WORDS && v <= body && TrimBlanks(body[|v|..]) == "";
      CjkVisible(v);
    }
  }

  lemma CjkVisible(v: string)
    requires v in CJK_WORDS
    ensures |v| == 2 && !IsSpace(v[0])
  {
    assert CJK_WORDS[0][0] == '\U{56DE}' && CJK_WORDS[1][0] == '\U{7B54}' && CJK_WORDS[2][0] == '\U{8F6C}';
  }

  /** Trimming leaves a visible beginning of a string in place. */
  lemma TrimKeepsFront(front: string, rest: string) returns (j: nat)
    requires front != "" && !IsSpace(front[0]) && !IsSpace(front[|front| - 1])
    ensures |front| <= j <= |front + rest| && TrimSpace(front + rest) == (front + rest)[..j]
    ensures AllSpace((front + rest)[j..])
  {
    var whole := front + rest;
    var i, e := TrimSpaceSplits(whole);
    hide IsSpace, TrimSpace;
    var k := |front|;
    assert whole[0] == front[0] && whole[k - 1] == front[k - 1];
    assert forall x :: e <= x < |whole| ==> IsSpace(whole[x]) by {
      assert forall x :: e <= x < |whole| ==> whole[x] == whole[e..][x - e];
    }
    j := e;
    assert whole[0..e] == whole[..e];
  }

  lemma LeftStepOfMarked(low: string, rest: string)
    requires LeftLength(low) > 0 && AllSpace(low[LeftLength(low)..])
    ensures Trimmed(TrimSpace(low + rest)) && LeftStep(TrimSpace(low + rest)) == TrimSpace(rest)
  {
    var k := LeftLength(low);
    var front, back := low[..k], low[k..] + rest;
    var whole := low + rest;
    LeftStartsVisible(low);
    hide TrimSpace, Trimmed, IsSpace, TagLength, MarkerLength;
    assert whole == front + back;
    TrimSpaceTrimmed(whole);
    var j := TrimKeepsFront(front, back);
    var t := whole[..j];
    LeftLengthPrefix(front, low);
    LeftLengthPrefix(front, t);
    assert LeftStep(t) == TrimSpace(t[k..]) by { LeftStepMeans(t); }
    TrimIgnoresPadding("", t[k..], whole[j..]);
    TrimIgnoresPadding(low[k..], rest, "");
    TailTwice(low, rest, k, j);
  }

  /** The tail of a text, cut at two places. */
  lemma TailTwice(low: string, rest: string, k: nat, j: nat)
    requires k <= |low| && k <= j <= |low + rest|
    ensures var whole := low + rest; "" + whole[..j][k..] + whole[j..] == low[k..] + rest + ""
  {
    var whole := low + rest;
    assert whole[..j][k..] + whole[j..] == whole[k..];
    assert whole[k..] == low[k..] + rest;
  }

  /** A marker or tag in front never changes the normal form. */
  lemma MarkerInvisible(m: string, s: string)
    requires Recognised(m)
    ensures NormalForm(m + s) == NormalForm(s)
  {
    var low, rest := ToLower(m), ToLower(s);
    LowerConcat(m, s);
    LeftStepOfMarked(low, rest);
    var t := TrimSpace(low + rest);
    FormKept(t);
    TrimSpaceTrimmed(rest);
    SettleIsForm(t);
    SettleIsForm(TrimSpace(rest));
  }

  /** Trimming leaves a visible end of a string in place. */
  lemma TrimKeepsBack(rest: string, back: string) returns (i: nat)
    requires back != "" && !IsSpace(back[0]) && !IsSpace(back[|back| - 1])
    ensures i <= |rest| && TrimSpace(rest + back) == rest[i..] + back && AllSpace(rest[..i])
  {
    var whole := rest + back;
    var x, e := TrimSpaceSplits(whole);
    hide IsSpace, TrimSpace;
    assert whole[|rest|] == back[0] && whole[|whole| - 1] == back[|back| - 1];
    assert forall y :: 0 <= y < x ==> IsSpace(whole[y]) by {
      assert forall y :: 0 <= y < x ==> whole[y] == whole[..x][y];
    }
    i := x;
    assert whole[x..e] == rest[x..] + back;
    assert forall y :: 0 <= y < x ==> whole[y] == rest[y];
  }

  lemma RightStepOfForwarded(s: string, w: string)
    requires w == FWD || w == FW
    ensures Trimmed(TrimSpace(s + w)) && RightStep(TrimSpace(s + w)) == TrimSpace(s)
  {
    assert w != "" && !IsSpace(w[0]) && !IsSpace(w[|w| - 1]);
    hide TrimSpace, TrailerLength, Trimmed, IsSpace, FWD, FW;
    TrimSpaceTrimmed(s + w);
    var i := TrimKeepsBack(s, w);
    var t := s[i..] + w;
    TrailerOf(s[i..], w);
    hide AllSpace;
    StripTrailerMeans(t, |w|);
    assert t[..|t| - |w|] == s[i..];
    TrimDropsFront(s, i);
    hide StripTrailer;
  }

  lemma TrimDropsFront(s: string, i: nat)
    requires i <= |s| && AllSpace(s[..i])
    ensures TrimSpace(s[i..]) == TrimSpace(s)
  {
    hide TrimSpace, AllSpace;
    TrimIgnoresPadding(s[..i], s[i..], "");
    assert s[..i] + s[i..] + "" == s;
  }

  lemma TrailerOf(s: string, w: string)
    requires w == FWD || w == FW
    ensures TrailerLength(s + w) == |w|
  {
    var t := s + w;
    assert t[|t| - |w|..] == w;
    if w == FW && |t| >= 5 {
      assert t[|t| - 5..][3] == 'w';
      assert FWD[3] == 'd';
    }
  }

  /** A forward trailer behind never changes the normal form. */
  lemma TrailerInvisible(s: string, w: string)
    requires ToLower(w) == FWD || ToLower(w) == FW
    ensures NormalForm(s + w) == NormalForm(s)
  {
    var low, tail := ToLower(s), ToLower(w);
    LowerConcat(s, w);
    RightStepOfForwarded(low, tail);
    var t := TrimSpace(low + tail);
    FormKept(t);
    TrimSpaceTrimmed(low);
    SettleIsForm(t);
    SettleIsForm(TrimSpace(low));
  }

  /** Any number of markers and tags in front and forward trailers behind leave the normal
      form of a subject unchanged. */
  lemma {:induction false} SubjectConfluent(markers: seq<string>, s: string, trailers: seq<string>)
    requires forall m :: m in markers ==> Recognised(m)
    requires forall w :: w in trailers ==> ToLower(w) == FWD || ToLower(w) == FW
    ensures NormalForm(Join(markers, "") + (s + Join(trailers, ""))) == NormalForm(s)
    decreases |markers|, |trailers|
  {
    hide NormalForm, Recognised;
    if markers != [] {
      var rest := Join(markers[1..], "") + (s + Join(trailers, ""));
      assert Join(markers, "") + (s + Join(trailers, "")) == markers[0] + rest;
      MarkerInvisible(markers[0], rest);
      SubjectConfluent(markers[1..], s, trailers);
    } else if trailers != [] {
      var front, last := trailers[..|trailers| - 1], trailers[|trailers| - 1];
      assert trailers == front + [last];
      if front != [] {
        JoinAppend(front, last, "");
      }
      var inner := Join(markers, "") + (s + Join(front, ""));
      assert Join(markers, "") + (s + Join(trailers, "")) == inner + last;
      TrailerInvisible(inner, last);
      SubjectConfluent(markers, s, front);
    } else {
      assert "" + (s + "") == s;
    }
  }
}
