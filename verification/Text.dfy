/** The string operations of Go's standard library that the modelled code calls.

    Strings are sequences of Unicode scalar values. White space is exactly what
    `unicode.IsSpace` accepts; case mapping covers the ASCII letters and leaves
    every other character alone. */
module Text {

  datatype Option<+T> = None | Some(value: T)

  predicate IsSpace(c: char) {
    || '\t' <= c <= '\r' || c == ' ' || c == '\U{85}' || c == '\U{A0}'
    || c == '\U{1680}' || '\U{2000}' <= c <= '\U{200A}' || c == '\U{2028}' || c == '\U{2029}'
    || c == '\U{202F}' || c == '\U{205F}' || c == '\U{3000}'
  }

  function LowerChar(c: char): char {
    if 'A' <= c <= 'Z' then (c as int + 32) as char else c
  }

  function ToLower(s: string): (r: string)
    ensures |r| == |s|
    ensures forall i :: 0 <= i < |s| ==> r[i] == LowerChar(s[i])
  {
    seq(|s|, i requires 0 <= i < |s| => LowerChar(s[i]))
  }

  predicate EqualFold(a: string, b: string) {
    ToLower(a) == ToLower(b)
  }

  function TrimLeft(s: string): string {
    if s != "" && IsSpace(s[0]) then TrimLeft(s[1..]) else s
  }

  function TrimRight(s: string): string {
    if s != "" && IsSpace(s[|s| - 1]) then TrimRight(s[..|s| - 1]) else s
  }

  function TrimSpace(s: string): string {
    TrimRight(TrimLeft(s))
  }

  predicate AllSpace(s: string) {
    forall i :: 0 <= i < |s| ==> IsSpace(s[i])
  }

  /** No white space at either end: the strings `TrimSpace` leaves alone. */
  predicate Trimmed(s: string) {
    s == "" || (!IsSpace(s[0]) && !IsSpace(s[|s| - 1]))
  }

  /** The characters of a string that are no white space. */
  function WithoutSpace(s: string): string {
    if s == "" then "" else (if IsSpace(s[0]) then "" else [s[0]]) + WithoutSpace(s[1..])
  }

  predicate HasPrefix(s: string, p: string) {
    p <= s
  }

  predicate HasSuffix(s: string, p: string) {
    |p| <= |s| && s[|s| - |p|..] == p
  }

  predicate Contains(s: string, p: string) {
    p <= s || (s != "" && Contains(s[1..], p))
  }

  function TrimPrefixChar(s: string, c: char): string {
    if s != "" && s[0] == c then s[1..] else s
  }

  function TrimSuffixChar(s: string, c: char): string {
    if s != "" && s[|s| - 1] == c then s[..|s| - 1] else s
  }

  /** `strings.Join`. */
  function Join(parts: seq<string>, sep: string): string {
    if parts == [] then ""
    else if |parts| == 1 then parts[0]
    else parts[0] + sep + Join(parts[1..], sep)
  }

  lemma {:induction false} TrimLeftSplits(s: string) returns (n: nat)
    ensures n <= |s| && TrimLeft(s) == s[n..] && AllSpace(s[..n])
    ensures TrimLeft(s) == "" || !IsSpace(TrimLeft(s)[0])
  {
    if s != "" && IsSpace(s[0]) {
      var m := TrimLeftSplits(s[1..]);
      n := m + 1;
      assert s[1..][m..] == s[n..];
      assert s[..n] == [s[0]] + s[1..][..m];
    } else {
      n := 0;
    }
  }

  lemma {:induction false} TrimRightSplits(s: string) returns (n: nat)
    ensures n <= |s| && TrimRight(s) == s[..n] && AllSpace(s[n..])
    ensures TrimRight(s) == "" || !IsSpace(TrimRight(s)[|TrimRight(s)| - 1])
  {
    if s != "" && IsSpace(s[|s| - 1]) {
      var t := s[..|s| - 1];
      n := TrimRightSplits(t);
      assert t[..n] == s[..n];
      assert s[n..] == t[n..] + [s[|s| - 1]];
    } else {
      n := |s|;
      assert s[..n] == s;
    }
  }

  /** `TrimSpace` cuts a blank prefix and a blank suffix, and nothing else. */
  lemma TrimSpaceSplits(s: string) returns (i: nat, j: nat)
    ensures i <= j <= |s| && TrimSpace(s) == s[i..j]
    ensures AllSpace(s[..i]) && AllSpace(s[j..])
    ensures Trimmed(TrimSpace(s))
  {
    i := TrimLeftSplits(s);
    var t := s[i..];
    var n := TrimRightSplits(t);
    j := i + n;
    assert t[..n] == s[i..j];
    assert t[n..] == s[j..];
  }

  lemma TrimSpaceTrimmed(s: string)
    ensures Trimmed(TrimSpace(s))
  {
    var _, _ := TrimSpaceSplits(s);
  }

  /** `TrimSpace` does nothing to a string without outer white space. */
  lemma TrimmedIsFixed(s: string)
    requires Trimmed(s)
    ensures TrimSpace(s) == s
  {
    assert TrimLeft(s) == s;
    assert TrimRight(s) == s;
  }

  lemma TrimSpaceIdempotent(s: string)
    ensures TrimSpace(TrimSpace(s)) == TrimSpace(s)
  {
    TrimSpaceTrimmed(s);
    TrimmedIsFixed(TrimSpace(s));
  }

  lemma LowerConcat(a: string, b: string)
    ensures ToLower(a + b) == ToLower(a) + ToLower(b)
  {
  }

  lemma LowerKeepsTrimmed(s: string)
    ensures Trimmed(ToLower(s)) == Trimmed(s)
  {
  }

  lemma {:induction false} TrimLeftBlankPrefix(a: string, b: string)
    requires AllSpace(a)
    ensures TrimLeft(a + b) == TrimLeft(b)
  {
    if a == "" {
      assert a + b == b;
    } else {
      assert (a + b)[1..] == a[1..] + b;
      TrimLeftBlankPrefix(a[1..], b);
    }
  }

  /** A string all of whose characters are blank trims to nothing. */
  lemma AllSpaceTrims(s: string)
    requires AllSpace(s)
    ensures TrimSpace(s) == ""
  {
    assert s + "" == s;
    TrimLeftBlankPrefix(s, "");
  }

  lemma {:induction false} TrimRightBlankSuffix(a: string, b: string)
    requires AllSpace(b)
    ensures TrimRight(a + b) == TrimRight(a)
  {
    if b == "" {
      assert a + b == a;
    } else {
      var last := |b| - 1;
      assert (a + b)[..|a + b| - 1] == a + b[..last];
      TrimRightBlankSuffix(a, b[..last]);
    }
  }

  /** Blank padding around a string with no outer white space trims away. */
  lemma TrimPadded(a: string, core: string, b: string)
    requires AllSpace(a) && AllSpace(b) && Trimmed(core)
    ensures TrimSpace(a + core + b) == core
  {
    if core == "" {
      AllSpaceTrims(a + core + b);
    } else {
      assert a + core + b == a + (core + b);
      TrimLeftBlankPrefix(a, core + b);
      assert TrimLeft(core + b) == core + b;
      TrimRightBlankSuffix(core, b);
    }
  }

  /** Blank padding never matters to trimming. */
  lemma TrimIgnoresPadding(a: string, s: string, b: string)
    requires AllSpace(a) && AllSpace(b)
    ensures TrimSpace(a + s + b) == TrimSpace(s)
  {
    var i, j := TrimSpaceSplits(s);
    var front, core, back := a + s[..i], s[i..j], s[j..] + b;
    assert a + s + b == front + core + back;
    TrimPadded(front, core, back);
  }

  lemma LowerKeepsSpace(s: string)
    ensures AllSpace(ToLower(s)) == AllSpace(s)
  {
    assert forall c :: IsSpace(LowerChar(c)) == IsSpace(c);
    if AllSpace(ToLower(s)) {
      forall i | 0 <= i < |s| ensures IsSpace(s[i]) {
        assert IsSpace(ToLower(s)[i]);
      }
    }
  }

  /** Lower-casing and trimming commute. */
  lemma TrimLowerCommute(s: string)
    ensures TrimSpace(ToLower(s)) == ToLower(TrimSpace(s))
  {
    var i, j := TrimSpaceSplits(s);
    assert s == s[..i] + s[i..j] + s[j..];
    LowerConcat(s[..i] + s[i..j], s[j..]);
    LowerConcat(s[..i], s[i..j]);
    LowerKeepsSpace(s[..i]);
    LowerKeepsSpace(s[j..]);
    LowerKeepsTrimmed(s[i..j]);
    TrimPadded(ToLower(s[..i]), ToLower(s[i..j]), ToLower(s[j..]));
  }

  lemma {:induction false} WithoutSpaceAppend(a: string, b: string)
    ensures WithoutSpace(a + b) == WithoutSpace(a) + WithoutSpace(b)
  {
    if a == "" {
      assert a + b == b;
    } else {
      assert (a + b)[1..] == a[1..] + b;
      WithoutSpaceAppend(a[1..], b);
    }
  }

  lemma {:induction false} WithoutSpaceBlank(s: string)
    requires AllSpace(s)
    ensures WithoutSpace(s) == ""
  {
    if s != "" {
      WithoutSpaceBlank(s[1..]);
    }
  }

  lemma {:induction false} JoinAppend(parts: seq<string>, last: string, sep: string)
    requires parts != []
    ensures Join(parts + [last], sep) == Join(parts, sep) + sep + last
  {
    if |parts| == 1 {
      assert (parts + [last])[1..] == [last];
    } else {
      assert (parts + [last])[1..] == parts[1..] + [last];
      JoinAppend(parts[1..], last, sep);
      calc {
        Join(parts + [last], sep);
        parts[0] + sep + (Join(parts[1..], sep) + sep + last);
        (parts[0] + sep + Join(parts[1..], sep)) + sep + last;
      }
    }
  }

  /** Lower-casing maps the capital letters to the small ones, in alphabetical order, and nothing else. */
  lemma LowerMeans(c: char, i: nat)
    ensures i < 26 ==> LowerChar(('A' as int + i) as char) == ('a' as int + i) as char
    ensures !('A' <= c <= 'Z') ==> LowerChar(c) == c
  {
  }

  predicate OccursAt(s: string, p: string, i: nat) {
    i + |p| <= |s| && s[i..i + |p|] == p
  }

  /** A string contains another exactly when the other occurs at some place. */
  lemma {:induction false} ContainsMeans(s: string, p: string)
    ensures Contains(s, p) <==> exists i: nat :: OccursAt(s, p, i)
  {
    if p <= s {
      assert OccursAt(s, p, 0);
    }
    if s != "" {
      ContainsMeans(s[1..], p);
      if i: nat :| OccursAt(s[1..], p, i) {
        assert s[1..][i..i + |p|] == s[i + 1..i + 1 + |p|];
        assert OccursAt(s, p, i + 1);
      }
      if i: nat :| OccursAt(s, p, i) && i > 0 {
        assert s[1..][i - 1..i - 1 + |p|] == s[i..i + |p|];
        assert OccursAt(s[1..], p, i - 1);
      }
    }
  }

  // ----- padding -----

  /** `p` is `s` with white space around it. */
  ghost predicate Pads(p: string, s: string) {
    exists a, b :: AllSpace(a) && AllSpace(b) && p == a + s + b
  }

  lemma PadsTrim(p: string, s: string)
    requires Pads(p, s) && Trimmed(s)
    ensures TrimSpace(p) == s
  {
    var a, b :| AllSpace(a) && AllSpace(b) && p == a + s + b;
    TrimPadded(a, s, b);
  }

  /** `p` is `s`, in any case, with white space around it. */
  ghost predicate PadsFold(p: string, s: string) {
    exists u :: Pads(p, u) && EqualFold(u, s)
  }

  lemma PadsFoldTrim(p: string, s: string)
    requires PadsFold(p, s) && Trimmed(s) && ToLower(s) == s
    ensures ToLower(TrimSpace(p)) == s && (s != "" ==> TrimSpace(p) != "")
  {
    var u :| Pads(p, u) && EqualFold(u, s);
    LowerKeepsTrimmed(u);
    LowerKeepsTrimmed(s);
    PadsTrim(p, u);
  }

  lemma PadsItself(s: string)
    ensures Pads(s, s)
  {
    assert AllSpace("") && s == "" + s + "";
  }

  lemma TrimPads(p: string)
    ensures Pads(p, TrimSpace(p))
  {
    var i, j := TrimSpaceSplits(p);
    assert p == p[..i] + TrimSpace(p) + p[j..];
  }

  /** Trimmed and lower-cased, a string is a given word exactly when it is that word in any case, padded. */
  lemma PadsFoldExact(p: string, s: string)
    requires Trimmed(s) && ToLower(s) == s
    ensures ToLower(TrimSpace(p)) == s <==> PadsFold(p, s)
  {
    TrimPads(p);
    hide TrimSpace, Trimmed, Pads;
    if PadsFold(p, s) {
      PadsFoldTrim(p, s);
    }
  }

  // ----- joined parts -----

  predicate FreeOf(parts: seq<string>, c: char) {
    forall i :: 0 <= i < |parts| ==> c !in parts[i]
  }

  lemma {:induction false} FirstPart(a: string, x: string, b: string, y: string, c: char)
    requires c !in a && c !in b && a + [c] + x == b + [c] + y
    ensures a == b && x == y
  {
    var s, t := a + [c] + x, b + [c] + y;
    assert a != "" ==> s[0] == a[0] && a[0] in a;
    assert b != "" ==> t[0] == b[0] && b[0] in b;
    assert a == "" <==> b == "";
    if a == "" {
      assert s[1..] == x && t[1..] == y;
    } else {
      assert s[1..] == a[1..] + [c] + x && t[1..] == b[1..] + [c] + y;
      FirstPart(a[1..], x, b[1..], y, c);
      assert a == [a[0]] + a[1..] && b == [b[0]] + b[1..];
    }
  }

  lemma JoinMarks(a: seq<string>, c: char)
    requires a != [] && FreeOf(a, c)
    ensures c in Join(a, [c]) <==> |a| > 1
  {
    if |a| > 1 {
      assert Join(a, [c])[|a[0]|] == c;
    }
  }

  /** Joined with a character that none of them holds, parts can be told apart again. */
  lemma {:induction false} JoinInjective(a: seq<string>, b: seq<string>, c: char)
    requires a != [] && b != [] && FreeOf(a, c) && FreeOf(b, c) && Join(a, [c]) == Join(b, [c])
    ensures a == b
  {
    JoinMarks(a, c);
    JoinMarks(b, c);
    if |a| > 1 {
      FirstPart(a[0], Join(a[1..], [c]), b[0], Join(b[1..], [c]), c);
      JoinInjective(a[1..], b[1..], c);
      assert a == [a[0]] + a[1..] && b == [b[0]] + b[1..];
    } else {
      assert a == [a[0]] && b == [b[0]];
    }
  }
}
