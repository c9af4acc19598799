/** Message, attachment and scoped ids: internal/mail/id.go. Go strings are byte strings,
    so this module works on bytes; white space is trimmed as its UTF-8 encodings. */
module Ids {
  import opened Text
  import opened Base64
  import Base64Lines

  datatype Result<+T> = Ok(value: T) | Err

  // ----- splitting and decimal numbers -----

  /** `strings.SplitN(s, sep, 2)`: the parts around the first separator. */
  function SplitFirst(s: Bytes, sep: Byte): Option<(Bytes, Bytes)> {
    if s == [] then None
    else if s[0] == sep then Some(([], s[1..]))
    else
      var r := SplitFirst(s[1..], sep);
      if r.None? then None else Some(([s[0]] + r.value.0, r.value.1))
  }

  lemma {:induction false} SplitAtFirst(a: Bytes, sep: Byte, b: Bytes)
    requires sep !in a
    ensures SplitFirst(a + [sep] + b, sep) == Some((a, b))
  {
    var s := a + [sep] + b;
    if a == [] {
      assert s[1..] == b;
    } else {
      assert s[1..] == a[1..] + [sep] + b;
      SplitAtFirst(a[1..], sep, b);
      assert a == [a[0]] + a[1..];
    }
  }

  /** Where the first separator of a string that has one stands. */
  lemma {:induction false} FirstSeparator(a: Bytes, sep: Byte) returns (x: Bytes, y: Bytes)
    requires sep in a
    ensures sep !in x && a == x + [sep] + y
  {
    if a[0] == sep {
      x, y := [], a[1..];
      assert a == [] + [sep] + a[1..];
    } else {
      assert a == [a[0]] + a[1..];
      x, y := FirstSeparator(a[1..], sep);
      assert a == ([a[0]] + x) + [sep] + y;
      x := [a[0]] + x;
    }
  }

  predicate IsDigit(c: Byte) {
    48 <= c <= 57
  }

  function Digits(n: nat): Bytes {
    if n < 10 then [48 + n] else Digits(n / 10) + [48 + n % 10]
  }

  function DigitsValue(s: Bytes): nat
    requires forall i :: 0 <= i < |s| ==> IsDigit(s[i])
  {
    if s == [] then 0 else DigitsValue(s[..|s| - 1]) * 10 + DigitOf(s[|s| - 1])
  }

  function DigitOf(c: Byte): nat
    requires IsDigit(c)
  {
    var d: int := c;
    d - 48
  }

  lemma {:induction false} DigitsRoundTrip(n: nat)
    ensures Digits(n) != [] && forall i :: 0 <= i < |Digits(n)| ==> IsDigit(Digits(n)[i])
    ensures DigitsValue(Digits(n)) == n
  {
    if n < 10 {
      assert [48 + n][..0] == [];
      assert DigitsValue([48 + n]) == DigitsValue([48 + n][..0]) * 10 + n;
    } else {
      DigitsRoundTrip(n / 10);
      var s := Digits(n);
      assert s[..|s| - 1] == Digits(n / 10);
    }
  }

  predicate AllDigits(s: Bytes) {
    s != [] && forall i :: 0 <= i < |s| ==> IsDigit(s[i])
  }

  /** `strconv.ParseUint(s, 10, 32)`. */
  function ParseUint32(s: Bytes): Result<nat> {
    if AllDigits(s) && DigitsValue(s) < 0x1_0000_0000 then Ok(DigitsValue(s)) else Err
  }

  /** `strconv.Atoi` on 64-bit integers: an optional sign, then digits. */
  function Atoi(s: Bytes): Result<int> {
    var negative := s != [] && s[0] == 45;
    var body := if s != [] && (s[0] == 45 || s[0] == 43) then s[1..] else s;
    if !AllDigits(body) then Err
    else
      var n: int := DigitsValue(body);
      var v: int := if negative then -n else n;
      if -0x8000_0000_0000_0000 <= v < 0x8000_0000_0000_0000 then Ok(v) else Err
  }

  function FormatInt(n: int): Bytes {
    if n < 0 then [45] + Digits(-n) else Digits(n)
  }

  lemma AtoiRoundTrip(n: int)
    requires -0x8000_0000_0000_0000 <= n < 0x8000_0000_0000_0000
    ensures Atoi(FormatInt(n)) == Ok(n)
  {
    if n < 0 {
      DigitsRoundTrip(-n);
      assert ([45] + Digits(-n))[1..] == Digits(-n);
    } else {
      DigitsRoundTrip(n);
      assert IsDigit(Digits(n)[0]);
    }
  }

  // ----- base64url strings -----

  function EncodeURL(b: Bytes): Bytes {
    EncodeRaw(b, URL)
  }

  /** `base64.RawURLEncoding.DecodeString`, which skips carriage returns and line feeds. */
  function DecodeURL(s: Bytes): Option<Bytes> {
    DecodeRaw(Base64Lines.DropBreaks(s), URL)
  }

  lemma URLRoundTrip(b: Bytes)
    ensures DecodeURL(EncodeURL(b)) == Some(b)
    ensures forall i :: 0 <= i < |EncodeURL(b)| ==> InAlphabet(EncodeURL(b)[i], URL)
  {
    RawAlphabet(b, URL);
    hide EncodeRaw, DecodeRaw;
    Base64Lines.DropBreaksNone(EncodeURL(b));
    RawRoundTrip(b, URL);
  }

  // ----- message and attachment ids -----

  const BAR: Byte := 124

  function EncodeMessageID(mailbox: Bytes, uid: nat): Bytes {
    EncodeURL(mailbox + [BAR] + Digits(uid))
  }

  function DecodeMessageID(id: Bytes): Result<(Bytes, nat)> {
    var b := DecodeURL(id);
    if b.None? then Err else
    var parts := SplitFirst(b.value, BAR);
    if parts.None? then Err else
    var u := ParseUint32(parts.value.1);
    if u.Err? then Err else Ok((parts.value.0, u.value))
  }

  function EncodeAttachmentID(messageID: Bytes, part: int): Bytes {
    EncodeURL(messageID + [BAR] + FormatInt(part))
  }

  function DecodeAttachmentID(id: Bytes): Result<(Bytes, int)> {
    var b := DecodeURL(id);
    if b.None? then Err else
    var parts := SplitFirst(b.value, BAR);
    if parts.None? then Err else
    var n := Atoi(parts.value.1);
    if n.Err? || n.value < 0 then Err else Ok((parts.value.0, n.value))
  }

  /** A message id comes back exactly when the mailbox name has no bar; otherwise decoding
      reports an error rather than a wrong mailbox. */
  lemma MessageIDRoundTrip(mailbox: Bytes, uid: nat)
    requires uid < 0x1_0000_0000
    ensures DecodeMessageID(EncodeMessageID(mailbox, uid)) == Ok((mailbox, uid)) <==> BAR !in mailbox
    ensures BAR in mailbox ==> DecodeMessageID(EncodeMessageID(mailbox, uid)).Err?
  {
    var raw := mailbox + [BAR] + Digits(uid);
    URLRoundTrip(raw);
    DigitsRoundTrip(uid);
    hide EncodeURL, DecodeURL, Digits;
    if BAR !in mailbox {
      SplitAtFirst(mailbox, BAR, Digits(uid));
    } else {
      var x, y := FirstSeparator(mailbox, BAR);
      var rest := y + [BAR] + Digits(uid);
      assert raw == x + [BAR] + rest;
      SplitAtFirst(x, BAR, rest);
      assert rest[|y|] == BAR;
    }
  }

  lemma EncodedHasNoBar(b: Bytes)
    ensures BAR !in EncodeURL(b)
  {
    URLRoundTrip(b);
    hide EncodeURL;
  }

  /** An attachment id built over a message id gives back that id and the part number, for every
      mailbox name, exactly when the part number is not negative. */
  lemma AttachmentIDRoundTrip(mailbox: Bytes, uid: nat, part: int)
    requires -0x8000_0000_0000_0000 <= part < 0x8000_0000_0000_0000
    ensures var id := EncodeMessageID(mailbox, uid);
      && (DecodeAttachmentID(EncodeAttachmentID(id, part)) == Ok((id, part)) <==> part >= 0)
      && (part < 0 ==> DecodeAttachmentID(EncodeAttachmentID(id, part)).Err?)
  {
    var id := EncodeMessageID(mailbox, uid);
    EncodedHasNoBar(mailbox + [BAR] + Digits(uid));
    URLRoundTrip(id + [BAR] + FormatInt(part));
    AtoiRoundTrip(part);
    hide EncodeURL, DecodeURL, Atoi, FormatInt;
    SplitAtFirst(id, BAR, FormatInt(part));
  }

  // ----- trimming white space -----

  lemma {:induction false} SplitMeans(s: Bytes, sep: Byte)
    ensures var r := SplitFirst(s, sep);
      if sep in s then r.Some? && s == r.value.0 + [sep] + r.value.1 && sep !in r.value.0 else r.None?
  {
    if s != [] && s[0] != sep {
      SplitMeans(s[1..], sep);
      assert s == [s[0]] + s[1..];
    } else if s != [] {
      assert s == [] + [sep] + s[1..];
    }
  }

  /** Whatever text an id is, what is decoded from it is a mailbox without a bar and a UID of 32 bits: what stands
      before the first bar of the bytes, and the digits behind it. */
  lemma DecodedMessage(id: Bytes)
    ensures var r := DecodeMessageID(id); var b := DecodeURL(id);
      && (r.Ok? ==>
            && b.Some? && BAR !in r.value.0 && r.value.1 < 0x1_0000_0000
            && exists digits :: b.value == r.value.0 + [BAR] + digits && ParseUint32(digits) == Ok(r.value.1))
      && (b.None? || BAR !in b.value ==> r.Err?)
  {
    var b := DecodeURL(id);
    if b.Some? {
      SplitMeans(b.value, BAR);
    }
    hide DecodeURL, SplitFirst, DigitsValue;
  }

  /** The same for attachments: a part that is not negative. */
  lemma DecodedAttachment(id: Bytes)
    ensures var r := DecodeAttachmentID(id); var b := DecodeURL(id);
      && (r.Ok? ==>
            && b.Some? && BAR !in r.value.0 && 0 <= r.value.1 < 0x8000_0000_0000_0000
            && exists text :: b.value == r.value.0 + [BAR] + text && Atoi(text) == Ok(r.value.1))
      && (b.None? || BAR !in b.value ==> r.Err?)
  {
    var b := DecodeURL(id);
    if b.Some? {
      SplitMeans(b.value, BAR);
    }
    hide DecodeURL, SplitFirst, DigitsValue;
  }

  /** The UTF-8 encoding of one white-space character. */
  predicate SpaceUnit(u: Bytes) {
    || (|u| == 1 && (9 <= u[0] <= 13 || u[0] == 32))
    || (|u| == 2 && u[0] == 0xC2 && (u[1] == 0x85 || u[1] == 0xA0))
    || (|u| == 3 && u[0] == 0xE1 && u[1] == 0x9A && u[2] == 0x80)
    || (|u| == 3 && u[0] == 0xE2 && u[1] == 0x80
      && (0x80 <= u[2] <= 0x8A || u[2] == 0xA8 || u[2] == 0xA9 || u[2] == 0xAF))
    || (|u| == 3 && u[0] == 0xE2 && u[1] == 0x81 && u[2] == 0x9F)
    || (|u| == 3 && u[0] == 0xE3 && u[1] == 0x80 && u[2] == 0x80)
  }

  /** A character of the first plane in UTF-8 (section 3 of RFC 3629). */
  function Utf8(c: char): Bytes
    requires c as int < 0x1_0000
  {
    var n := c as int;
    if n < 0x80 then [n]
    else if n < 0x800 then [0xC0 + n / 64, 0x80 + n % 64]
    else [0xE0 + n / 4096, 0x80 + n / 64 % 64, 0x80 + n % 64]
  }

  /** White space of bytes is white space of characters. */
  lemma SpaceUnitMeans(c: char)
    requires c as int < 0x1_0000
    ensures SpaceUnit(Utf8(c)) <==> IsSpace(c)
  {
    var n := c as int;
    assert n == n / 64 * 64 + n % 64 && n / 64 == n / 4096 * 64 + n / 64 % 64;
  }

  /** The length of a leading white-space character, or zero. */
  function LeadUnit(s: Bytes): (n: nat)
    ensures n <= |s|
  {
    if |s| >= 1 && SpaceUnit(s[..1]) then 1
    else if |s| >= 2 && SpaceUnit(s[..2]) then 2
    else if |s| >= 3 && SpaceUnit(s[..3]) then 3
    else 0
  }

  function TailUnit(s: Bytes): (n: nat)
    ensures n <= |s|
  {
    if |s| >= 1 && SpaceUnit(s[|s| - 1..]) then 1
    else if |s| >= 2 && SpaceUnit(s[|s| - 2..]) then 2
    else if |s| >= 3 && SpaceUnit(s[|s| - 3..]) then 3
    else 0
  }

  function TrimStart(s: Bytes): Bytes {
    if LeadUnit(s) > 0 then TrimStart(s[LeadUnit(s)..]) else s
  }

  function TrimEnd(s: Bytes): Bytes {
    if TailUnit(s) > 0 then TrimEnd(s[..|s| - TailUnit(s)]) else s
  }

  function Trim(s: Bytes): Bytes {
    TrimEnd(TrimStart(s))
  }

  lemma {:induction false} TrimStartEnds(s: Bytes)
    ensures LeadUnit(TrimStart(s)) == 0
  {
    if LeadUnit(s) > 0 {
      TrimStartEnds(s[LeadUnit(s)..]);
    }
  }

  lemma {:induction false} TrimEndEnds(s: Bytes)
    ensures TailUnit(TrimEnd(s)) == 0 && TrimEnd(s) <= s
  {
    hide TailUnit;
    if TailUnit(s) > 0 {
      var t := s[..|s| - TailUnit(s)];
      TrimEndEnds(t);
      assert t <= s;
      assert TrimEnd(s) == t[..|TrimEnd(t)|] == s[..|TrimEnd(t)|];
    }
  }

  lemma LeadUnitOfPrefix(p: Bytes, s: Bytes)
    requires p <= s && LeadUnit(s) == 0
    ensures LeadUnit(p) == 0
  {
    hide SpaceUnit;
    assert |p| >= 1 ==> p[..1] == s[..1];
    assert |p| >= 2 ==> p[..2] == s[..2];
    assert |p| >= 3 ==> p[..3] == s[..3];
  }

  /** A trimmed string has no white space at either end, and trimming leaves such a string alone. */
  lemma TrimEnds(s: Bytes)
    ensures LeadUnit(Trim(s)) == 0 && TailUnit(Trim(s)) == 0
    ensures LeadUnit(s) == 0 && TailUnit(s) == 0 ==> Trim(s) == s
    ensures Trim(Trim(s)) == Trim(s)
  {
    hide LeadUnit, TailUnit;
    TrimStartEnds(s);
    TrimEndEnds(TrimStart(s));
    LeadUnitOfPrefix(Trim(s), TrimStart(s));
  }

  lemma UnitHasNoNul(u: Bytes)
    requires SpaceUnit(u)
    ensures 0 !in u
  {
  }

  lemma {:induction false} NulSurvivesStart(s: Bytes)
    requires 0 in s
    ensures 0 in TrimStart(s)
  {
    hide SpaceUnit;
    var n := LeadUnit(s);
    if n > 0 {
      UnitHasNoNul(s[..n]);
      assert s == s[..n] + s[n..];
      NulSurvivesStart(s[n..]);
    }
  }

  lemma {:induction false} NulSurvivesEnd(s: Bytes)
    requires 0 in s
    ensures 0 in TrimEnd(s)
  {
    hide SpaceUnit;
    var n := |s| - TailUnit(s);
    if n < |s| {
      UnitHasNoNul(s[n..]);
      assert s == s[..n] + s[n..];
      NulSurvivesEnd(s[..n]);
    }
  }

  /** A string holding a NUL is not blank. */
  lemma NulIsNotBlank(s: Bytes)
    requires 0 in s
    ensures Trim(s) != []
  {
    NulSurvivesStart(s);
    NulSurvivesEnd(TrimStart(s));
  }

  // ----- scoped ids -----

  const NUL: Byte := 0

  predicate Blank(s: Bytes) {
    Trim(s) == []
  }

  function ScopeID(prefix: Bytes, account: Bytes, legacy: Bytes): Bytes {
    var id := Trim(legacy);
    if id == [] then []
    else if IsScoped(prefix, id) then id
    else
      var acct := Trim(account);
      if acct == [] then id else prefix + EncodeURL(acct + [NUL] + id)
  }

  /** The account and id inside a scoped id, if it decodes. */
  function Payload(prefix: Bytes, t: Bytes): Option<(Bytes, Bytes)> {
    if !(prefix <= t) || t == prefix then None
    else
      var decoded := DecodeURL(t[|prefix|..]);
      if decoded.None? then None else SplitFirst(decoded.value, NUL)
  }

  predicate IsScoped(prefix: Bytes, id: Bytes) {
    var p := Payload(prefix, Trim(id));
    p.Some? && !Blank(p.value.0) && !Blank(p.value.1)
  }

  function UnscopeID(prefix: Bytes, id: Bytes): Bytes {
    var t := Trim(id);
    if !IsScoped(prefix, t) then t
    else
      var p := Payload(prefix, t);
      if p.None? || Blank(p.value.1) then t else p.value.1
  }

  function NormalizeID(prefix: Bytes, account: Bytes, id: Bytes): Bytes {
    if IsScoped(prefix, id) then Trim(id) else ScopeID(prefix, account, id)
  }

  /** The prefixes in use, `v2m_` and `v2t_`, begin and end outside white space. */
  predicate UsablePrefix(prefix: Bytes) {
    |prefix| > 0 && 33 <= prefix[0] < 127
  }

  const MESSAGE_PREFIX: Bytes := [118, 50, 109, 95]
  const THREAD_PREFIX: Bytes := [118, 50, 116, 95]

  lemma VisibleLead(s: Bytes)
    requires |s| > 0 && 33 <= s[0] < 127
    ensures LeadUnit(s) == 0
  {
    assert s[..1][0] == s[0];
    assert |s| >= 2 ==> s[..2][0] == s[0];
    assert |s| >= 3 ==> s[..3][0] == s[0];
  }

  lemma VisibleTail(s: Bytes)
    requires |s| > 0 && 33 <= s[|s| - 1] < 127
    ensures TailUnit(s) == 0
  {
    assert s[|s| - 1..][0] == s[|s| - 1];
    assert |s| >= 2 ==> s[|s| - 2..][1] == s[|s| - 1];
    assert |s| >= 3 ==> s[|s| - 3..][2] == s[|s| - 1];
  }

  lemma VisibleEnds(s: Bytes)
    requires |s| > 0 && 33 <= s[0] < 127 && 33 <= s[|s| - 1] < 127
    ensures Trim(s) == s
  {
    VisibleLead(s);
    VisibleTail(s);
    TrimEnds(s);
  }

  lemma ScopedIsTrimmed(prefix: Bytes, raw: Bytes)
    requires UsablePrefix(prefix) && raw != []
    ensures Trim(prefix + EncodeURL(raw)) == prefix + EncodeURL(raw) && EncodeURL(raw) != []
  {
    URLRoundTrip(raw);
    RawAlphabet(raw, URL);
    var s := prefix + EncodeURL(raw);
    hide EncodeRaw, DecodeURL;
    assert EncodeURL(raw) != [];
    assert InAlphabet(EncodeURL(raw)[|EncodeURL(raw)| - 1], URL);
    VisibleEnds(s);
  }

  lemma PayloadOf(prefix: Bytes, raw: Bytes)
    requires raw != [] && EncodeURL(raw) != []
    ensures Payload(prefix, prefix + EncodeURL(raw)) == SplitFirst(raw, NUL)
  {
    URLRoundTrip(raw);
    hide EncodeURL, DecodeURL;
    var s := prefix + EncodeURL(raw);
    assert s[|prefix|..] == EncodeURL(raw);
  }

  lemma EncodedLonger(raw: Bytes)
    ensures |EncodeURL(raw)| >= |raw|
  {
    RawAlphabet(raw, URL);
    hide EncodeRaw;
  }

  /** How a freshly scoped id reads back, for an account name that may hold a NUL itself. */
  lemma ScopedReads(prefix: Bytes, acct: Bytes, id: Bytes)
    requires UsablePrefix(prefix) && acct != [] && id != [] && Trim(acct) == acct && Trim(id) == id
    ensures var s := prefix + EncodeURL(acct + [NUL] + id);
      && Trim(s) == s
      && (IsScoped(prefix, s) <==> acct[0] != NUL)
      && (UnscopeID(prefix, s) == id <==> NUL !in acct)
      && |s| > |id|
  {
    var raw := acct + [NUL] + id;
    ScopedIsTrimmed(prefix, raw);
    PayloadOf(prefix, raw);
    EncodedLonger(raw);
    hide EncodeURL, Payload, Trim, IsScoped, UnscopeID, SplitFirst, Blank;
    if NUL !in acct {
      PlainAccountReads(prefix, acct, id, prefix + EncodeURL(raw));
    } else {
      NulAccountReads(prefix, acct, id, prefix + EncodeURL(raw));
    }
  }

  lemma PlainAccountReads(prefix: Bytes, acct: Bytes, id: Bytes, s: Bytes)
    requires NUL !in acct && acct != [] && id != [] && Trim(acct) == acct && Trim(id) == id
    requires Trim(s) == s && Payload(prefix, s) == SplitFirst(acct + [NUL] + id, NUL)
    ensures IsScoped(prefix, s) && acct[0] != NUL && UnscopeID(prefix, s) == id
  {
    hide Payload, Trim, SplitFirst;
    assert acct[0] in acct;
    SplitAtFirst(acct, NUL, id);
    ReadsAs(prefix, s, acct, id);
  }

  lemma NulAccountReads(prefix: Bytes, acct: Bytes, id: Bytes, s: Bytes)
    requires NUL in acct && Trim(acct) == acct && |s| > |id|
    requires Trim(s) == s && Payload(prefix, s) == SplitFirst(acct + [NUL] + id, NUL)
    ensures (IsScoped(prefix, s) <==> acct[0] != NUL) && UnscopeID(prefix, s) != id
  {
    hide Payload, Trim, SplitFirst, IsScoped, UnscopeID, Blank;
    var x, y := FirstSeparator(acct, NUL);
    var rest := y + [NUL] + id;
    assert acct + [NUL] + id == x + [NUL] + rest;
    SplitAtFirst(x, NUL, rest);
    assert rest[|y|] == NUL;
    NulIsNotBlank(rest);
    assert !Blank(rest) by { BlankMeans(rest); }
    FirstPartBlank(acct, x, y);
    ReadsAs(prefix, s, x, rest);
  }

  lemma BlankMeans(s: Bytes)
    ensures Blank(s) <==> Trim(s) == []
  {
  }

  lemma ReadsAs(prefix: Bytes, s: Bytes, x: Bytes, rest: Bytes)
    requires Trim(s) == s && Payload(prefix, s) == Some((x, rest))
    ensures IsScoped(prefix, s) <==> !Blank(x) && !Blank(rest)
    ensures UnscopeID(prefix, s) == if IsScoped(prefix, s) then rest else s
  {
    hide Payload, Trim;
  }

  /** The part of a trimmed name before its first NUL is blank only when it is empty. */
  lemma FirstPartBlank(acct: Bytes, x: Bytes, y: Bytes)
    requires acct == x + [NUL] + y && Trim(acct) == acct && NUL !in x
    ensures Blank(x) <==> acct[0] == NUL
  {
    TrimEnds(acct);
    LeadUnitOfPrefix(x, acct);
    if x == [] {
      assert acct[0] == NUL;
    } else {
      assert acct[0] == x[0] && x[0] in x;
      StartNotBlank(x);
    }
  }

  lemma StartNotBlank(x: Bytes)
    requires x != [] && LeadUnit(x) == 0
    ensures !Blank(x)
  {
    TrimEndEnds(x);
    TrimEndKeepsStart(x);
  }

  lemma {:induction false} TrimEndKeepsStart(x: Bytes)
    requires x != [] && LeadUnit(x) == 0
    ensures TrimEnd(x) != []
  {
    var n := |x| - TailUnit(x);
    if TailUnit(x) > 0 {
      TailIsNotAll(x);
      LeadUnitOfPrefix(x[..n], x);
      TrimEndKeepsStart(x[..n]);
    }
  }

  lemma TailIsNotAll(x: Bytes)
    requires x != [] && LeadUnit(x) == 0
    ensures TailUnit(x) < |x|
  {
    hide SpaceUnit;
    assert x[0..] == x;
    assert x[..|x|] == x;
  }

  /** What is not scoped: without an account an id stays itself, without an id there is none, and a scoped id is not
      scoped again. */
  lemma ScopeNothing(prefix: Bytes, account: Bytes, legacy: Bytes)
    ensures Blank(legacy) ==> ScopeID(prefix, account, legacy) == []
    ensures Blank(account) || IsScoped(prefix, Trim(legacy)) ==> ScopeID(prefix, account, legacy) == Trim(legacy)
  {
    hide Trim, IsScoped, EncodeURL;
  }

  /** Scoping a non-blank id that is not scoped yet, for a non-blank account: the result is
      recognised as scoped exactly when the account does not begin with NUL, and unscoping
      gives the id back exactly when the account holds no NUL. */
  lemma ScopeRoundTrip(prefix: Bytes, account: Bytes, legacy: Bytes)
    requires UsablePrefix(prefix) && !Blank(account) && !Blank(legacy) && !IsScoped(prefix, legacy)
    ensures var s := ScopeID(prefix, account, legacy);
      && (IsScoped(prefix, s) <==> Trim(account)[0] != NUL)
      && (UnscopeID(prefix, s) == Trim(legacy) <==> NUL !in Trim(account))
  {
    TrimEnds(account);
    TrimEnds(legacy);
    assert !IsScoped(prefix, Trim(legacy));
    hide Trim, IsScoped, EncodeURL, UnscopeID;
    ScopedReads(prefix, Trim(account), Trim(legacy));
  }

  /** For accounts without NUL, scoping is injective up to trimming. */
  lemma ScopeInjective(prefix: Bytes, a1: Bytes, i1: Bytes, a2: Bytes, i2: Bytes)
    requires UsablePrefix(prefix)
    requires !Blank(a1) && !Blank(i1) && !IsScoped(prefix, i1) && NUL !in Trim(a1)
    requires !Blank(a2) && !Blank(i2) && !IsScoped(prefix, i2) && NUL !in Trim(a2)
    requires ScopeID(prefix, a1, i1) == ScopeID(prefix, a2, i2)
    ensures Trim(a1) == Trim(a2) && Trim(i1) == Trim(i2)
  {
    TrimEnds(i1);
    TrimEnds(i2);
    assert !IsScoped(prefix, Trim(i1)) && !IsScoped(prefix, Trim(i2));
    hide Trim, IsScoped;
    var r1, r2 := Trim(a1) + [NUL] + Trim(i1), Trim(a2) + [NUL] + Trim(i2);
    var s1, s2 := prefix + EncodeURL(r1), prefix + EncodeURL(r2);
    assert s1 == s2;
    assert s1[|prefix|..] == EncodeURL(r1) && s2[|prefix|..] == EncodeURL(r2);
    URLRoundTrip(r1);
    URLRoundTrip(r2);
    SplitAtFirst(Trim(a1), NUL, Trim(i1));
    SplitAtFirst(Trim(a2), NUL, Trim(i2));
  }

  /** Normalising twice is normalising once, for every account and id, exactly when the id is
      blank or already scoped, or the account is blank or does not begin with NUL. */
  lemma NormalizeIdempotent(prefix: Bytes, account: Bytes, id: Bytes)
    requires UsablePrefix(prefix)
    ensures var n := NormalizeID(prefix, account, id);
      NormalizeID(prefix, account, n) == n <==>
        Blank(id) || IsScoped(prefix, id) || Blank(account) || Trim(account)[0] != NUL
  {
    TrimEnds(id);
    TrimEnds(account);
    var t, acct := Trim(id), Trim(account);
    var n := NormalizeID(prefix, account, id);
    assert IsScoped(prefix, t) == IsScoped(prefix, id);
    TrimEnds([]);
    if !Blank(id) && !IsScoped(prefix, id) && !Blank(account) {
      ScopedReads(prefix, acct, t);
      hide Trim, IsScoped, EncodeURL;
      if acct[0] == NUL {
        ScopedReads(prefix, acct, n);
      }
    }
  }

  lemma PrefixesUsable()
    ensures UsablePrefix(MESSAGE_PREFIX) && UsablePrefix(THREAD_PREFIX)
    ensures MESSAGE_PREFIX == ['v' as int, '2' as int, 'm' as int, '_' as int]
    ensures THREAD_PREFIX == ['v' as int, '2' as int, 't' as int, '_' as int]
  {
  }

  lemma VisibleWord(s: Bytes)
    requires |s| > 0 && 33 <= s[0] < 127 && 33 <= s[|s| - 1] < 127
    ensures Trim(s) == s && !Blank(s)
  {
    VisibleEnds(s);
    hide Trim;
  }

  /** Accounts with a NUL: one inside makes unscoping give another id, one in front makes the scoped
      id unrecognisable. */
  lemma NulAccounts(legacy: Bytes)
    requires legacy == [109]
    ensures UnscopeID(MESSAGE_PREFIX, ScopeID(MESSAGE_PREFIX, [97, NUL, 98], legacy)) != legacy
    ensures !IsScoped(MESSAGE_PREFIX, ScopeID(MESSAGE_PREFIX, [NUL, 98], legacy))
  {
    PrefixesUsable();
    VisibleWord(legacy);
    VisibleWord([97, NUL, 98]);
    NulLeads([NUL, 98]);
    assert !IsScoped(MESSAGE_PREFIX, legacy) by { ShortIsPlain(legacy); }
    hide Trim, IsScoped, UnscopeID, ScopeID, MESSAGE_PREFIX, Blank, UsablePrefix;
    ScopeRoundTrip(MESSAGE_PREFIX, [97, NUL, 98], legacy);
    ScopeRoundTrip(MESSAGE_PREFIX, [NUL, 98], legacy);
    assert NUL in [97, NUL, 98];
  }

  lemma ShortIsPlain(legacy: Bytes)
    requires legacy == [109] && Trim(legacy) == legacy
    ensures !IsScoped(MESSAGE_PREFIX, legacy)
  {
    hide Trim;
  }

  lemma NulLeads(s: Bytes)
    requires s == [NUL, 98]
    ensures Trim(s) == s && !Blank(s)
  {
    VisibleTail(s);
    assert s[..1] == [NUL] && s[..2] == s;
    TrimEnds(s);
    hide Trim, TailUnit;
  }
}
