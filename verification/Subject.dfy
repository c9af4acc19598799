/** Subject normal form for conversation threading: internal/mail/threading.go. The three
    anchored regular expressions are written as functions giving the length of their match. */
module Subject {
  import opened Text

  /** `\s` of Go's regular expressions. */
  predicate RegexSpace(c: char) {
    c == '\t' || c == '\n' || c == '\U{0C}' || c == '\r' || c == ' '
  }

  function BlankLength(s: string): (n: nat)
    ensures n <= |s| && AllSpace(s[..n])
  {
    if s != "" && RegexSpace(s[0]) then
      var n := 1 + BlankLength(s[1..]);
      assert forall i :: 0 < i < n ==> s[i] == s[1..][i - 1];
      n
    else 0
  }

  /** The first position of a character. */
  function IndexOf(s: string, c: char): (r: Option<nat>)
    ensures r.Some? ==> r.value < |s| && s[r.value] == c && c !in s[..r.value]
    ensures r.None? ==> c !in s
  {
    if s == "" then None
    else if s[0] == c then Some(0)
    else
      var r := IndexOf(s[1..], c);
      if r.None? then None
      else assert s[..r.value + 1] == [s[0]] + s[1..][..r.value]; Some(r.value + 1)
  }

  // ----- list tags -----

  /** The length of one tag at the start: a bracket pair around 1 to 40 characters. */
  function TagLength(s: string): (n: nat)
    ensures n <= |s| && (n > 0 ==> s[n - 1] == ']')
  {
    if s == "" || s[0] != '[' then 0
    else
      var end := IndexOf(s, ']');
      if end.Some? && 2 <= end.value <= 41 && '[' !in s[1..end.value] then end.value + 1 else 0
  }

  /** The match of the tag pattern: all tags at the start, each with the blanks behind it. */
  function TagsLength(s: string): (n: nat)
    ensures n <= |s|
    decreases |s|
  {
    var t := TagLength(s);
    if t == 0 then 0
    else
      var b := BlankLength(s[t..]);
      t + b + TagsLength(s[t + b..])
  }

  // ----- reply and forward markers -----

  const REPLY_WORDS := ["re", "aw", "sv", "wg", "fw", "fwd"]
  const CJK_WORDS := ["\U{56DE}\U{590D}", "\U{7B54}\U{590D}", "\U{8F6C}\U{53D1}"]

  /** Case-insensitive equality with a lower-case letter; the long s folds to s. */
  predicate FoldsTo(c: char, letter: char) {
    LowerChar(c) == letter || (letter == 's' && c == '\U{17F}')
  }

  predicate BeginsWithWord(s: string, w: string) {
    |w| <= |s| && forall i :: 0 <= i < |w| ==> FoldsTo(s[i], w[i])
  }

  function TrimBlanks(s: string): string
    decreases |s|
  {
    if s != "" && RegexSpace(s[0]) then TrimBlanks(s[1..])
    else if s != "" && RegexSpace(s[|s| - 1]) then TrimBlanks(s[..|s| - 1])
    else s
  }

  /** Blanks around nothing or a bracketed number, as in `Re[2]`. */
  predicate Counter(t: string) {
    var u := TrimBlanks(t);
    u == "" || (|u| >= 3 && u[0] == '[' && u[|u| - 1] == ']' && forall i :: 0 < i < |u| - 1 ==> '0' <= u[i] <= '9')
  }

  /** What stands before the colon of a marker. */
  predicate MarkerBody(body: string) {
    || (exists w :: w in REPLY_WORDS && BeginsWithWord(body, w) && Counter(body[|w|..]))
    || (exists w :: w in CJK_WORDS && w <= body && TrimBlanks(body[|w|..]) == "")
  }

  /** The length of a marker at the start, up to and including its colon. */
  function MarkerLength(s: string): (n: nat)
    ensures n <= |s| && (n > 0 ==> s[n - 1] == ':')
  {
    var colon := IndexOf(s, ':');
    if colon.Some? && MarkerBody(s[..colon.value]) then colon.value + 1 else 0
  }

  // ----- the three replacements and the loop -----

  function StripTags(s: string): string {
    s[TagsLength(s)..]
  }

  function StripMarker(s: string): string {
    var n := MarkerLength(s);
    if n == 0 then s else s[n + BlankLength(s[n..])..]
  }

  const FWD := "(fwd)"
  const FW := "(fw)"

  function TrailerLength(s: string): (n: nat)
    ensures n <= |s|
  {
    if HasSuffix(s, FWD) then |FWD| else if HasSuffix(s, FW) then |FW| else 0
  }

  /** On a trimmed string the trailer pattern matches at most once, at its end. The blanks it
      also takes in front are trimmed away right after. */
  function StripTrailer(s: string): string {
    s[..|s| - TrailerLength(s)]
  }

  function Pass(s: string): string {
    TrimSpace(StripTrailer(TrimSpace(StripMarker(TrimSpace(StripTags(s))))))
  }

  /** The words of a string, separated by single spaces. */
  function SingleSpaced(s: string): string {
    Join(Fields(s), " ")
  }

  /** `strings.Fields`. */
  function Fields(s: string): seq<string>
    decreases |s|
  {
    if s == "" then []
    else if IsSpace(s[0]) then Fields(s[1..])
    else
      var n := WordLength(s);
      [s[..n]] + Fields(s[n..])
  }

  function WordLength(s: string): (n: nat)
    ensures n <= |s| && (s != "" && !IsSpace(s[0]) ==> n > 0)
  {
    if s == "" || IsSpace(s[0]) then 0 else 1 + WordLength(s[1..])
  }

  // ----- each pass takes a piece of the string -----

  /** `r` is a contiguous piece of `s`. */
  predicate Piece(r: string, s: string) {
    exists i, j :: 0 <= i <= j <= |s| && r == s[i..j]
  }

  lemma PieceShorter(r: string, s: string)
    requires Piece(r, s)
    ensures |r| < |s| || r == s
  {
    var i, j :| 0 <= i <= j <= |s| && r == s[i..j];
    if |r| == |s| {
      assert s[0..|s|] == s;
    }
  }

  lemma SliceOfSlice(s: string, i: nat, j: nat, k: nat, l: nat)
    requires i <= j <= |s| && k <= l <= j - i
    ensures s[i..j][k..l] == s[i + k..i + l]
  {
    var a, b := s[i..j][k..l], s[i + k..i + l];
    assert |a| == |b|;
    assert forall m :: 0 <= m < |a| ==> a[m] == b[m];
  }

  lemma PieceTransitive(q: string, r: string, s: string)
    requires Piece(q, r) && Piece(r, s)
    ensures Piece(q, s)
  {
    var i, j :| 0 <= i <= j <= |s| && r == s[i..j];
    var k, l :| 0 <= k <= l <= |r| && q == r[k..l];
    SliceOfSlice(s, i, j, k, l);
    assert q == s[i + k..i + l];
  }

  lemma DropIsPiece(s: string, i: nat, j: nat)
    requires i <= j <= |s|
    ensures Piece(s[i..j], s)
  {
  }

  lemma TrimIsPiece(s: string)
    ensures Piece(TrimSpace(s), s)
  {
    var i, j := TrimSpaceSplits(s);
  }

  lemma PassIsPiece(s: string)
    ensures Piece(Pass(s), s)
  {
    hide TrimSpace, TagsLength, MarkerLength, TrailerLength, BlankLength, Piece;
    var a := StripTags(s);
    var b := TrimSpace(a);
    var c := StripMarker(b);
    var d := TrimSpace(c);
    var e := StripTrailer(d);
    DropIsPiece(s, TagsLength(s), |s|);
    assert a == s[TagsLength(s)..|s|];
    TrimIsPiece(a);
    PieceTransitive(b, a, s);
    var n := MarkerLength(b);
    var cut := if n == 0 then 0 else n + BlankLength(b[n..]);
    DropIsPiece(b, cut, |b|);
    assert c == b[cut..|b|];
    PieceTransitive(c, b, s);
    TrimIsPiece(c);
    PieceTransitive(d, c, s);
    DropIsPiece(d, 0, |d| - TrailerLength(d));
    assert e == d[0..|d| - TrailerLength(d)];
    PieceTransitive(e, d, s);
    TrimIsPiece(e);
    PieceTransitive(TrimSpace(e), e, s);
  }

  /** A pass that changes the string makes it shorter. */
  lemma PassShortens(s: string)
    ensures |Pass(s)| < |s| || Pass(s) == s
  {
    hide Pass, Piece;
    PassIsPiece(s);
    PieceShorter(Pass(s), s);
  }

  /** Passes repeated until nothing changes. */
  function Settle(s: string): string
    decreases |s|
  {
    if s == "" then ""
    else
      PassShortens(s);
      if Pass(s) == s then s else Settle(Pass(s))
  }

  method NormalizeThreadSubject(subject: string) returns (normalized: string)
    ensures normalized == NormalForm(subject)
  {
    normalized := TrimSpace(ToLower(subject));
    while normalized != ""
      invariant Settle(normalized) == Settle(TrimSpace(ToLower(subject)))
      decreases |normalized|
    {
      var next := TrimSpace(StripTags(normalized));
      next := TrimSpace(StripMarker(next));
      next := TrimSpace(StripTrailer(next));
      assert next == Pass(normalized);
      PassShortens(normalized);
      if next == normalized {
        break;
      }
      normalized := next;
    }
    normalized := SingleSpaced(normalized);
  }

  function NormalForm(subject: string): string {
    SingleSpaced(Settle(TrimSpace(ToLower(subject))))
  }
}
