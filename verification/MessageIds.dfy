/** Message-id headers: finding, normalising, listing and formatting ids
    (internal/mail/threading.go and internal/mail/imap_smtp.go, section 3.6.4 of RFC 5322). */
module MessageIds {
  import opened Text

  // ----- the token pattern -----

  /** A character of a bare token: no angle bracket, comma or ASCII white space. */
  predicate BareChar(c: char) {
    c != '<' && c != '>' && c != ',' && c != ' ' && !('\t' <= c <= '\r')
  }

  function RunLength(s: string): (n: nat)
    ensures n <= |s|
  {
    if s != "" && BareChar(s[0]) then 1 + RunLength(s[1..]) else 0
  }

  /** The position of the first `>`, or the length. */
  function ToBracket(s: string): (n: nat)
    ensures n <= |s|
  {
    if s != "" && s[0] != '>' then 1 + ToBracket(s[1..]) else 0
  }

  /** The length of the match at the start of `s`, or zero: text in angle brackets, or a run
      of bare characters with an at sign strictly inside it. */
  function MatchLength(s: string): (n: nat)
    ensures n <= |s|
  {
    if s == "" then 0
    else if s[0] == '<' then
      var n := ToBracket(s[1..]);
      if 0 < n && n + 1 < |s| then n + 2 else 0
    else
      var n := RunLength(s);
      if exists i :: 0 < i < n - 1 && s[i] == '@' then n else 0
  }

  /** The leftmost match. */
  function FindToken(s: string): Option<string> {
    if s == "" then None
    else if MatchLength(s) > 0 then Some(s[..MatchLength(s)])
    else FindToken(s[1..])
  }

  /** All matches, left to right, without overlap. */
  function FindAll(s: string): seq<string>
    decreases |s|
  {
    if s == "" then []
    else if MatchLength(s) > 0 then [s[..MatchLength(s)]] + FindAll(s[MatchLength(s)..])
    else FindAll(s[1..])
  }

  // ----- normalising -----

  function NormalizeToken(value: string): string {
    TrimSpace(TrimSuffixChar(TrimPrefixChar(TrimSpace(ToLower(value)), '<'), '>'))
  }

  function NormalizeID(value: string): string {
    var found := FindToken(TrimSpace(value));
    if found.Some? && TrimSpace(found.value) != "" then NormalizeToken(TrimSpace(found.value))
      else NormalizeToken(value)
  }

  /** The normal forms, without blanks and repetitions, in order of first occurrence. */
  function NormalizeFrom(values: seq<string>, seen: set<string>): seq<string> {
    if values == [] then []
    else
      var n := NormalizeID(values[0]);
      if n == "" || n in seen then NormalizeFrom(values[1..], seen)
      else [n] + NormalizeFrom(values[1..], seen + {n})
  }

  function NormalizeIDs(values: seq<string>): seq<string> {
    NormalizeFrom(values, {})
  }

  method NormalizeMessageIDHeaders(values: seq<string>) returns (out: seq<string>)
    ensures out == NormalizeIDs(values)
  {
    hide NormalizeID;
    var seen: set<string> := {};
    out := [];
    for i := 0 to |values|
      invariant out + NormalizeFrom(values[i..], seen) == NormalizeIDs(values)
    {
      assert values[i..][1..] == values[i + 1..];
      var normalized := NormalizeID(values[i]);
      if normalized == "" {
        continue;
      }
      if normalized in seen {
        continue;
      }
      seen := seen + {normalized};
      out := out + [normalized];
    }
  }

  function ParseIDList(raw: string): seq<string> {
    NormalizeIDs(FindAll(raw))
  }

  function BuildReplyHeaders(messageID: string, inReplyTo: string, references: seq<string>): (string, seq<string>) {
    var parent := NormalizeID(messageID);
    var refs := NormalizeIDs(references);
    var seeded := if refs == [] && NormalizeID(inReplyTo) != "" then [NormalizeID(inReplyTo)] else refs;
    (parent, NormalizeIDs(if parent != "" then seeded + [parent] else seeded))
  }

  // ----- the wire format -----

  function Unbracket(value: string): string {
    TrimSuffixChar(TrimPrefixChar(TrimSpace(value), '<'), '>')
  }

  function FormatID(value: string): string {
    if TrimSpace(value) == "" then "" else "<" + Unbracket(value) + ">"
  }

  function FormatFrom(values: seq<string>, seen: set<string>): seq<string> {
    if values == [] then []
    else
      var clean := Unbracket(values[0]);
      if clean == "" || ToLower(clean) in seen then FormatFrom(values[1..], seen)
      else [FormatID(clean)] + FormatFrom(values[1..], seen + {ToLower(clean)})
  }

  function FormatReferences(references: seq<string>, inReplyTo: string): string {
    Join(FormatFrom(references + [inReplyTo], {}), " ")
  }

  method FormatReferencesHeader(references: seq<string>, inReplyTo: string) returns (header: string)
    ensures header == FormatReferences(references, inReplyTo)
  {
    hide Unbracket, FormatID;
    var values := references + [inReplyTo];
    var items: seq<string> := [];
    var seen: set<string> := {};
    for i := 0 to |values|
      invariant items + FormatFrom(values[i..], seen) == FormatFrom(values, {})
    {
      assert values[i..][1..] == values[i + 1..];
      var clean := Unbracket(values[i]);
      if clean == "" {
        continue;
      }
      var key := ToLower(clean);
      if key in seen {
        continue;
      }
      seen := seen + {key};
      items := items + [FormatID(clean)];
    }
    assert values[|values|..] == [] && items + [] == items;
    header := Join(items, " ");
  }

  // ----- well-formed ids -----

  /** An id that the token pattern and trimming leave whole. */
  predicate WellFormed(id: string) {
    id != "" && forall i :: 0 <= i < |id| ==> BareChar(id[i]) && !IsSpace(id[i])
  }

  predicate Lowered(id: string) {
    ToLower(id) == id
  }

  function Bracketed(id: string): string {
    "<" + id + ">"
  }

  lemma {:induction false} RunOfBare(id: string)
    requires forall i :: 0 <= i < |id| ==> BareChar(id[i])
    ensures RunLength(id) == |id|
  {
    hide BareChar;
    if id != "" {
      RunOfBare(id[1..]);
    }
  }

  lemma {:induction false} FindInBare(id: string)
    requires forall i :: 0 <= i < |id| ==> BareChar(id[i])
    ensures FindToken(id) == None || FindToken(id) == Some(id)
    ensures FindToken(id).Some? ==> exists i :: 0 < i < |id| - 1 && id[i] == '@'
  {
    if id != "" {
      RunOfBare(id);
      assert id[..|id|] == id;
      if MatchLength(id) == 0 {
        FindInBare(id[1..]);
      }
    }
  }

  lemma NormalizeBareToken(id: string)
    requires WellFormed(id)
    ensures NormalizeToken(id) == ToLower(id) && TrimSpace(id) == id
  {
    TrimmedIsFixed(id);
    LowerKeepsTrimmed(id);
    TrimmedIsFixed(ToLower(id));
    var low := ToLower(id);
    assert BareChar(id[0]) && BareChar(id[|id| - 1]);
    assert low[0] != '<' && low[|low| - 1] != '>';
  }

  /** A well-formed id, bare or in angle brackets, normalises to its lower-case form. */
  lemma NormalizeWellFormed(id: string)
    requires WellFormed(id)
    ensures NormalizeID(id) == ToLower(id)
  {
    NormalizeBareToken(id);
    FindInBare(id);
    hide NormalizeToken, FindToken, TrimSpace;
  }

  lemma {:induction false} ToBracketOf(id: string, rest: string)
    requires '>' !in id
    ensures ToBracket(id + ">" + rest) == |id|
  {
    var s := id + ">" + rest;
    if id != "" {
      assert s[1..] == id[1..] + ">" + rest;
      ToBracketOf(id[1..], rest);
    }
  }

  lemma MatchBracketed(id: string, rest: string)
    requires id != "" && '>' !in id
    ensures MatchLength(Bracketed(id) + rest) == |id| + 2
  {
    var s := Bracketed(id) + rest;
    ToBracketOf(id, rest);
    assert s[1..] == id + ">" + rest;
  }

  lemma NormalizeBracketed(id: string)
    requires WellFormed(id)
    ensures NormalizeID(Bracketed(id)) == ToLower(id)
  {
    var b := Bracketed(id);
    MatchBracketed(id, "");
    assert b + "" == b;
    assert Trimmed(b);
    TrimmedIsFixed(b);
    assert b[..|b|] == b;
    var low := ToLower(b);
    LowerKeepsTrimmed(b);
    TrimmedIsFixed(low);
    assert low[0] == '<' && low[|low| - 1] == '>';
    assert low[1..][..|low| - 2] == ToLower(id);
    NormalizeBareToken(id);
    LowerKeepsTrimmed(id);
    TrimmedIsFixed(ToLower(id));
    hide TrimSpace, MatchLength;
    assert NormalizeToken(b) == ToLower(id);
  }

  function BracketAll(ids: seq<string>): (r: seq<string>)
    ensures |r| == |ids| && forall i :: 0 <= i < |ids| ==> r[i] == Bracketed(ids[i])
  {
    seq(|ids|, i requires 0 <= i < |ids| => Bracketed(ids[i]))
  }

  predicate AllWellFormed(ids: seq<string>) {
    forall i :: 0 <= i < |ids| ==> WellFormed(ids[i])
  }

  lemma WellFormedNoBracket(id: string)
    requires WellFormed(id)
    ensures '>' !in id && id != ""
  {
    assert forall i :: 0 <= i < |id| ==> BareChar(id[i]);
  }

  /** The tokens of a formatted list are the formatted ids. */
  lemma {:induction false} FindAllFormatted(ids: seq<string>)
    requires AllWellFormed(ids)
    ensures FindAll(Join(BracketAll(ids), " ")) == BracketAll(ids)
  {
    if ids != [] {
      var b := Bracketed(ids[0]);
      WellFormedNoBracket(ids[0]);
      assert BracketAll(ids)[1..] == BracketAll(ids[1..]);
      var tail := Join(BracketAll(ids[1..]), " ");
      FindAllFormatted(ids[1..]);
      hide MatchLength, WellFormed;
      if |ids| == 1 {
        MatchBracketed(ids[0], "");
        assert b + "" == b && b[..|b|] == b && b[|b|..] == "";
        assert BracketAll(ids) == [b];
      } else {
        var rest := " " + tail;
        MatchBracketed(ids[0], rest);
        var s := b + rest;
        assert Join(BracketAll(ids), " ") == s;
        assert s[..|b|] == b && s[|b|..] == rest;
        SpaceIsNoMatch(rest);
        assert rest[1..] == tail;
        assert BracketAll(ids) == [b] + BracketAll(ids[1..]);
      }
    }
  }

  lemma SpaceIsNoMatch(s: string)
    requires s != "" && s[0] == ' '
    ensures MatchLength(s) == 0
  {
  }

  // ----- normal lists -----

  predicate Distinct(ids: seq<string>) {
    forall i, j :: 0 <= i < j < |ids| ==> ids[i] != ids[j]
  }

  /** Well-formed, lower-case and without repetition. */
  // ----- ids between separators -----

  /** Characters that end a bare id: a comma or white space. */
  predicate Separators(sep: string) {
    sep != "" && forall i :: 0 <= i < |sep| ==> sep[i] == ',' || sep[i] == ' ' || '\t' <= sep[i] <= '\r'
  }

  /** An id as it may stand without brackets: an at sign inside, and no bracket, comma or white space. */
  predicate Bare(id: string) {
    && (forall i :: 0 <= i < |id| ==>
          id[i] != '<' && id[i] != '>' && id[i] != ',' && id[i] != ' ' && !('\t' <= id[i] <= '\r'))
    && exists i :: 0 < i < |id| - 1 && id[i] == '@'
  }

  lemma {:induction false} SkipSeparators(sep: string, rest: string)
    requires forall i :: 0 <= i < |sep| ==> sep[i] == ',' || sep[i] == ' ' || '\t' <= sep[i] <= '\r'
    ensures FindAll(sep + rest) == FindAll(rest)
  {
    if sep == "" {
      assert sep + rest == rest;
    } else {
      assert (sep + rest)[1..] == sep[1..] + rest && (sep + rest)[0] == sep[0];
      assert MatchLength(sep + rest) == 0;
      SkipSeparators(sep[1..], rest);
    }
  }

  lemma {:induction false} RunEnds(id: string, rest: string)
    requires (forall i :: 0 <= i < |id| ==> BareChar(id[i])) && (rest == "" || !BareChar(rest[0]))
    ensures RunLength(id + rest) == |id|
  {
    if id == "" {
      assert id + rest == rest;
    } else {
      assert (id + rest)[1..] == id[1..] + rest;
      RunEnds(id[1..], rest);
    }
  }

  lemma BareMatches(id: string, rest: string)
    requires Bare(id) && (rest == "" || !BareChar(rest[0]))
    ensures MatchLength(id + rest) == |id| > 0 && FindAll(id + rest) == [id] + FindAll(rest)
  {
    var s := id + rest;
    RunEnds(id, rest);
    var i :| 0 < i < |id| - 1 && id[i] == '@';
    assert s[i] == '@' && s[0] == id[0];
    assert s[..|id|] == id && s[|id|..] == rest;
  }

  /** Bare ids, set apart by commas or white space, are found. */
  lemma {:induction false} FindAllBare(ids: seq<string>, sep: string)
    requires Separators(sep) && forall i :: 0 <= i < |ids| ==> Bare(ids[i])
    ensures FindAll(Join(ids, sep)) == ids
  {
    if ids != [] {
      assert Bare(ids[0]);
      if |ids| == 1 {
        BareMatches(ids[0], "");
        assert ids[0] + "" == ids[0] && [ids[0]] + [] == ids;
      } else {
        var rest := Join(ids[1..], sep);
        assert ids[0] + sep + rest == ids[0] + (sep + rest) && (sep + rest)[0] == sep[0];
        FindAllBare(ids[1..], sep);
        BareMatches(ids[0], sep + rest);
        SkipSeparators(sep, rest);
        assert [ids[0]] + ids[1..] == ids;
      }
    }
  }

  predicate NormalList(ids: seq<string>) {
    AllWellFormed(ids) && Distinct(ids) && forall i :: 0 <= i < |ids| ==> Lowered(ids[i])
  }

  /** Normalising leaves a normal list alone, bare or in brackets. */
  lemma {:induction false} NormalizeNormal(ids: seq<string>, seen: set<string>)
    requires NormalList(ids) && Unseen(ids, seen)
    ensures NormalizeFrom(ids, seen) == ids
    ensures NormalizeFrom(BracketAll(ids), seen) == ids
  {
    hide NormalizeID, NormalList, Unseen;
    if ids != [] {
      NormalHeadTail(ids, seen);
      NormalizeNormal(ids[1..], seen + {ids[0]});
      assert ids == [ids[0]] + ids[1..];
      assert BracketAll(ids)[1..] == BracketAll(ids[1..]);
    }
  }

  predicate Unseen(ids: seq<string>, seen: set<string>) {
    forall i :: 0 <= i < |ids| ==> ids[i] !in seen
  }

  lemma NormalHeadTail(ids: seq<string>, seen: set<string>)
    requires ids != [] && NormalList(ids) && Unseen(ids, seen)
    ensures NormalizeID(ids[0]) == ids[0] && NormalizeID(Bracketed(ids[0])) == ids[0]
    ensures WellFormed(ids[0]) && Lowered(ids[0]) && ids[0] != "" && ids[0] !in seen
    ensures NormalList(ids[1..]) && Unseen(ids[1..], seen + {ids[0]})
  {
    NormalizeWellFormed(ids[0]);
    NormalizeBracketed(ids[0]);
    WellFormedNoBracket(ids[0]);
    hide NormalizeID, WellFormed;
  }

  lemma NormalizeOne(x: string, rest: seq<string>, seen: set<string>)
    requires NormalizeID(x) == x != ""
    ensures NormalizeFrom([x] + rest, seen) ==
      if x in seen then NormalizeFrom(rest, seen) else [x] + NormalizeFrom(rest, seen + {x})
  {
    hide NormalizeID;
    assert ([x] + rest)[1..] == rest;
  }

  lemma NormalizeNone(seen: set<string>)
    ensures NormalizeFrom([], seen) == []
  {
  }

  lemma {:induction false} NormalizeSnoc(ids: seq<string>, p: string, seen: set<string>)
    requires NormalList(ids) && WellFormed(p) && Lowered(p) && p !in seen
    requires Unseen(ids, seen)
    ensures NormalizeFrom(ids + [p], seen) == if p in ids then ids else ids + [p]
  {
    hide NormalizeID, NormalList, Unseen, WellFormed, NormalizeFrom;
    NormalizeWellFormed(p);
    WellFormedNoBracket(p);
    if ids == [] {
      assert ids + [p] == [p] + [];
      NormalizeOne(p, [], seen);
      NormalizeNone(seen + {p});
    } else {
      var x, rest := ids[0], ids[1..];
      NormalHeadTail(ids, seen);
      assert ids + [p] == [x] + (rest + [p]) && ids == [x] + rest;
      NormalizeOne(x, rest + [p], seen);
      if p == x {
        NormalizeSeen(rest, p, seen + {p});
      } else {
        NormalizeSnoc(rest, p, seen + {x});
      }
    }
  }

  lemma {:induction false} NormalizeSeen(ids: seq<string>, p: string, seen: set<string>)
    requires NormalList(ids) && p in seen && NormalizeID(p) == p
    requires Unseen(ids, seen)
    ensures NormalizeFrom(ids + [p], seen) == ids
  {
    if ids == [] {
      hide NormalizeID;
      assert ids + [p] == [p];
      assert [p][1..] == [];
    } else {
      hide NormalizeID, NormalList, Unseen, NormalizeFrom;
      var x, rest := ids[0], ids[1..];
      NormalHeadTail(ids, seen);
      assert ids + [p] == [x] + (rest + [p]) && ids == [x] + rest;
      NormalizeOne(x, rest + [p], seen);
      NormalizeSeen(rest, p, seen + {x});
    }
  }

  /** A header value whose normal form, if any, is well-formed. */
  predicate Clear(value: string) {
    NormalizeID(value) == "" || WellFormed(NormalizeID(value))
  }

  lemma NormalFormLowered(value: string)
    ensures Lowered(NormalizeID(value))
  {
    var found := FindToken(TrimSpace(value));
    if found.Some? {
      TokenLowered(TrimSpace(found.value));
    }
    TokenLowered(value);
    hide NormalizeToken;
  }

  lemma TokenLowered(value: string)
    ensures Lowered(NormalizeToken(value))
  {
    var low := TrimSpace(ToLower(value));
    TrimLowerCommute(value);
    assert Lowered(low);
    var cut := TrimSuffixChar(TrimPrefixChar(low, '<'), '>');
    assert Lowered(cut);
    TrimLowerCommute(cut);
  }

  /** Normalising clear values gives a normal list. */
  lemma {:induction false} NormalizeGivesNormal(values: seq<string>, seen: set<string>)
    requires forall i :: 0 <= i < |values| ==> Clear(values[i])
    ensures NormalList(NormalizeFrom(values, seen))
    ensures forall x :: x in NormalizeFrom(values, seen) ==> x !in seen
  {
    if values != [] {
      var n := NormalizeID(values[0]);
      NormalFormLowered(values[0]);
      assert Clear(values[0]);
      hide NormalizeID, WellFormed, Lowered;
      var seen' := if n == "" || n in seen then seen else seen + {n};
      NormalizeGivesNormal(values[1..], seen');
      var tail := NormalizeFrom(values[1..], seen');
      if n != "" && n !in seen {
        assert NormalizeFrom(values, seen) == [n] + tail;
        hide NormalList, NormalizeFrom, Clear;
        NormalCons(n, tail);
      }
    }
  }

  lemma NormalCons(n: string, tail: seq<string>)
    requires WellFormed(n) && Lowered(n) && NormalList(tail) && n !in tail
    ensures NormalList([n] + tail)
  {
    hide WellFormed, Lowered;
    assert forall i :: 0 <= i < |tail| ==> tail[i] in tail;
  }
}
