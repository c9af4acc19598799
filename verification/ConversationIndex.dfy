/** The root of a Thread-Index header: internal/mail/threading.go,
    NormalizeConversationIndexRoot. */
module ConversationIndex {
  import opened Text
  import opened Base64

  const ROOT_BYTES := 22

  // ----- hexadecimal -----

  function HexValue(c: Byte): Option<int> {
    if 48 <= c <= 57 then Some(c - 48)
    else if 97 <= c <= 102 then Some(c - 87)
    else if 65 <= c <= 70 then Some(c - 55)
    else None
  }

  function HexDigit(n: int): Byte
    requires 0 <= n < 16
  {
    if n < 10 then 48 + n else 87 + n
  }

  lemma HexValueRange(c: Byte)
    ensures HexValue(c).Some? ==> 0 <= HexValue(c).value < 16
  {
  }

  lemma HexDigitValue(n: int)
    requires 0 <= n < 16
    ensures HexValue(HexDigit(n)) == Some(n) && HexDigit(n) < 128
  {
  }

  function HexEncode(b: Bytes): (r: Bytes)
    ensures |r| == 2 * |b|
  {
    if b == [] then [] else [HexDigit(b[0] / 16), HexDigit(b[0] % 16)] + HexEncode(b[1..])
  }

  /** `hex.DecodeString`: an even number of hexadecimal digits. */
  function HexDecode(s: Bytes): (r: Option<Bytes>)
    ensures r.Some? ==> 2 * |r.value| == |s|
  {
    if s == [] then Some([])
    else if |s| == 1 || HexValue(s[0]).None? || HexValue(s[1]).None? then None
    else
      var rest := HexDecode(s[2..]);
      if rest.None? then None
      else
        HexValueRange(s[0]);
        HexValueRange(s[1]);
        var high, low := HexValue(s[0]).value, HexValue(s[1]).value;
        Some([high * 16 + low] + rest.value)
  }

  lemma {:induction false} HexRoundTrip(b: Bytes)
    ensures HexDecode(HexEncode(b)) == Some(b)
    ensures forall i :: 0 <= i < |HexEncode(b)| ==> HexEncode(b)[i] < 128
  {
    if b != [] {
      HexRoundTrip(b[1..]);
      HexDigitValue(b[0] / 16);
      HexDigitValue(b[0] % 16);
      hide HexValue, HexDigit;
      var s := HexEncode(b);
      assert s[2..] == HexEncode(b[1..]);
      assert b == [b[0]] + b[1..];
    }
  }

  // ----- the accepted forms -----

  datatype Form = StdPadded | StdRaw | UrlPadded | UrlRaw

  function Encode(b: Bytes, f: Form): Bytes {
    match f
    case StdPadded => EncodePadded(b, STD)
    case StdRaw => EncodeRaw(b, STD)
    case UrlPadded => EncodePadded(b, URL)
    case UrlRaw => EncodeRaw(b, URL)
  }

  function Decode(s: Bytes, f: Form): Option<Bytes> {
    match f
    case StdPadded => DecodePadded(s, STD)
    case StdRaw => DecodeRaw(s, STD)
    case UrlPadded => DecodePadded(s, URL)
    case UrlRaw => DecodeRaw(s, URL)
  }

  /** The root under one form, when it decodes to enough bytes. */
  function RootUnder(s: Bytes, f: Form): Option<Bytes> {
    var d := Decode(s, f);
    if d.Some? && |d.value| >= ROOT_BYTES then Some(d.value[..ROOT_BYTES]) else None
  }

  const FORMS := [StdPadded, StdRaw, UrlPadded, UrlRaw]

  function FirstRoot(s: Bytes, forms: seq<Form>): Option<Bytes> {
    if forms == [] then None
    else if RootUnder(s, forms[0]).Some? then RootUnder(s, forms[0])
    else FirstRoot(s, forms[1..])
  }

  /** Text that hexadecimal decoding takes first. */
  predicate HexLike(s: Bytes) {
    HexDecode(s).Some? && |s| >= 2 * ROOT_BYTES
  }

  /** The root of a header value without white space, in hexadecimal, or nothing. */
  function RootText(s: Bytes): Bytes {
    if HexLike(s) then HexEncode(HexDecode(s).value[..ROOT_BYTES])
    else
      var r := FirstRoot(s, FORMS);
      if r.Some? then HexEncode(r.value) else []
  }

  // ----- what the forms share -----

  /** Text that one alphabet decodes never decodes differently under the other. */
  lemma {:induction false} AlphabetsAgree(s: Bytes)
    ensures DecodeRaw(s, STD).Some? && DecodeRaw(s, URL).Some? ==> DecodeRaw(s, STD) == DecodeRaw(s, URL)
  {
    if |s| >= 4 {
      AlphabetsAgree(s[4..]);
    }
    SixAgree(s);
    hide DecSix;
  }

  lemma SixAgree(s: Bytes)
    ensures forall i :: 0 <= i < |s| ==>
      (DecSix(s[i], STD).Some? && DecSix(s[i], URL).Some? ==> DecSix(s[i], STD) == DecSix(s[i], URL))
  {
  }

  lemma {:induction false} DecodedAll(s: Bytes, al: Alphabet)
    ensures DecodeRaw(s, al).Some? ==> forall i :: 0 <= i < |s| ==> DecSix(s[i], al).Some?
  {
    hide DecSix;
    if |s| >= 4 {
      DecodedAll(s[4..], al);
      assert forall i :: 4 <= i < |s| ==> s[i] == s[4..][i - 4];
    }
  }

  lemma PadIsNotDecoded(raw: Bytes, pad: Bytes, al: Alphabet)
    requires Usable(al) && pad != [] && pad[0] == PAD
    ensures DecodeRaw(raw + pad, al).None?
  {
    DecodedAll(raw + pad, al);
    assert (raw + pad)[|raw|] == PAD;
    assert DecSix(PAD, al).None?;
  }

  function AlphabetOf(f: Form): Alphabet {
    if f.StdPadded? || f.StdRaw? then STD else URL
  }

  predicate IsPadded(f: Form) {
    f.StdPadded? || f.UrlPadded?
  }

  lemma FormsUsable(f: Form)
    ensures Usable(AlphabetOf(f))
    ensures forall b ::
      Encode(b, f) == if IsPadded(f) then EncodePadded(b, AlphabetOf(f)) else EncodeRaw(b, AlphabetOf(f))
    ensures forall s ::
      Decode(s, f) == if IsPadded(f) then DecodePadded(s, AlphabetOf(f)) else DecodeRaw(s, AlphabetOf(f))
  {
    hide EncodeRaw, EncodePadded, DecodeRaw, DecodePadded;
  }

  /** Whatever form a text was written in, every form that accepts it reads the same bytes. */
  lemma FormsAgree(b: Bytes, f: Form, g: Form)
    ensures Decode(Encode(b, f), f) == Some(b)
    ensures Decode(Encode(b, f), g).Some? ==> Decode(Encode(b, f), g) == Some(b)
  {
    var al, other := AlphabetOf(f), AlphabetOf(g);
    FormsUsable(f);
    FormsUsable(g);
    var raw := EncodeRaw(b, al);
    RawRoundTrip(b, al);
    AlphabetsAgree(raw);
    hide Encode, Decode, EncodeRaw, DecodeRaw, AlphabetOf;
    assert DecodeRaw(raw, other).Some? ==> DecodeRaw(raw, other) == Some(b) by { OtherReading(raw, b, al, other); }
    RawHasNoPad(b, al);
    if IsPadded(f) {
      Unpad(b, al, al);
      Unpad(b, al, other);
      hide DecodePadded;
      if !IsPadded(g) {
        PaddingBy(|b|);
        hide Padding;
        if Padding(|b|) == [] {
          assert EncodePadded(b, al) == raw;
        } else {
          PadIsNotDecoded(raw, Padding(|b|), other);
        }
      }
    } else if IsPadded(g) {
      NoPadToStrip(raw, other);
    }
  }

  lemma OtherReading(raw: Bytes, b: Bytes, al: Alphabet, other: Alphabet)
    requires Usable(al) && Usable(other) && DecodeRaw(raw, al) == Some(b)
    ensures DecodeRaw(raw, other).Some? ==> DecodeRaw(raw, other) == Some(b)
  {
    AlphabetsAgree(raw);
    hide DecodeRaw;
  }

  lemma NoPadToStrip(raw: Bytes, al: Alphabet)
    requires PAD !in raw
    ensures DecodePadded(raw, al).Some? ==> DecodePadded(raw, al) == DecodeRaw(raw, al)
  {
    hide DecodeRaw;
    assert |raw| > 0 ==> raw[|raw| - 1] in raw;
  }

  lemma {:induction false} FirstRootIs(s: Bytes, forms: seq<Form>, f: Form, r: Bytes)
    requires f in forms && RootUnder(s, f) == Some(r)
    requires forall g :: RootUnder(s, g).None? || RootUnder(s, g) == Some(r)
    ensures FirstRoot(s, forms) == Some(r)
  {
    hide RootUnder;
    if RootUnder(s, forms[0]).None? {
      assert forms == [forms[0]] + forms[1..];
      FirstRootIs(s, forms[1..], f, r);
    }
  }

  lemma HexNotBase64(s0: Byte, s1: Byte, a: Byte, al: Alphabet)
    requires Usable(al) && s0 == EncSix(a / 4, al) && HexValue(s0).Some? && HexValue(s1).Some?
    ensures HexValue(s0).value * 16 + HexValue(s1).value != a
  {
    HexValueRange(s1);
  }

  lemma EncodedStart(b: Bytes, f: Form)
    requires |b| >= ROOT_BYTES
    ensures |Encode(b, f)| >= 2 && Encode(b, f)[0] == EncSix(b[0] / 4, AlphabetOf(f))
  {
    FormsUsable(f);
    hide Encode, EncSix, AlphabetOf;
    assert EncodeRaw(b, AlphabetOf(f))[0] == EncSix(b[0] / 4, AlphabetOf(f));
  }

  /** A Thread-Index of at least 22 bytes, in any accepted base64 form, has its first 22 bytes as
      root, exactly when its text is not itself 44 or more hexadecimal digits. */
  lemma RootOfEncoding(b: Bytes, f: Form)
    requires |b| >= ROOT_BYTES
    ensures RootText(Encode(b, f)) == HexEncode(b[..ROOT_BYTES]) <==> !HexLike(Encode(b, f))
  {
    var s := Encode(b, f);
    var root := b[..ROOT_BYTES];
    if HexLike(s) {
      var d := HexDecode(s).value;
      EncodedStart(b, f);
      FormsUsable(f);
      HexNotBase64(s[0], s[1], b[0], AlphabetOf(f));
      hide Encode, EncSix, AlphabetOf, HexValue;
      assert d[0] == HexValue(s[0]).value * 16 + HexValue(s[1]).value;
      HexRoundTrip(root);
      HexRoundTrip(d[..ROOT_BYTES]);
      assert d[..ROOT_BYTES][0] != root[0];
    } else {
      forall g ensures Decode(s, f) == Some(b) && (Decode(s, g).Some? ==> Decode(s, g) == Some(b)) {
        FormsAgree(b, f, g);
      }
      hide Encode, Decode, HexLike;
      assert FORMS[0] == StdPadded && FORMS[1] == StdRaw && FORMS[2] == UrlPadded && FORMS[3] == UrlRaw;
      assert f in FORMS;
      FirstRootIs(s, FORMS, f, root);
    }
  }

  /** All values extending one 22-byte root agree. */
  lemma SameRoot(root: Bytes, x: Bytes, f: Form, y: Bytes, g: Form)
    requires |root| == ROOT_BYTES && !HexLike(Encode(root + x, f)) && !HexLike(Encode(root + y, g))
    ensures RootText(Encode(root + x, f)) == RootText(Encode(root + y, g)) == HexEncode(root)
  {
    hide RootText, HexLike, Encode;
    RootOfEncoding(root + x, f);
    RootOfEncoding(root + y, g);
    assert (root + x)[..ROOT_BYTES] == root && (root + y)[..ROOT_BYTES] == root;
  }

  /** Normalising a root again changes nothing. */
  lemma RootTextIdempotent(s: Bytes)
    ensures RootText(RootText(s)) == RootText(s)
  {
    if RootText(s) == [] {
      EmptyRoot();
    } else {
      var r := RootBytes(s);
      HexRoundTrip(r);
      hide HexEncode, HexDecode, FirstRoot;
      assert r[..ROOT_BYTES] == r;
    }
  }

  lemma EmptyRoot()
    ensures RootText([]) == []
  {
    forall g ensures RootUnder([], g).None? {
      EmptyDecodes(g);
    }
    NoRoot([], FORMS);
  }

  lemma EmptyDecodes(g: Form)
    ensures RootUnder([], g).None?
  {
  }

  lemma {:induction false} NoRoot(s: Bytes, forms: seq<Form>)
    requires forall g :: RootUnder(s, g).None?
    ensures FirstRoot(s, forms).None?
  {
    hide RootUnder;
    if forms != [] {
      NoRoot(s, forms[1..]);
    }
  }

  /** The 22 bytes behind a root that is there. */
  lemma RootBytes(s: Bytes) returns (r: Bytes)
    requires RootText(s) != []
    ensures |r| == ROOT_BYTES && RootText(s) == HexEncode(r)
  {
    if HexLike(s) {
      r := HexDecode(s).value[..ROOT_BYTES];
    } else {
      r := FirstRoot(s, FORMS).value;
      FirstRootSize(s, FORMS);
    }
  }

  lemma {:induction false} FirstRootSize(s: Bytes, forms: seq<Form>)
    ensures FirstRoot(s, forms).Some? ==> |FirstRoot(s, forms).value| == ROOT_BYTES
  {
    hide Decode;
    if forms != [] {
      FirstRootSize(s, forms[1..]);
    }
  }

  /** A root is 22 bytes, written as 44 digits. */
  lemma RootLength(s: Bytes)
    ensures RootText(s) == [] || |RootText(s)| == 44
  {
    FirstRootSize(s, FORMS);
    hide HexDecode, FirstRoot, FORMS;
  }

  // ----- a value read as hexadecimal -----

  predicate AllOf(b: Bytes, x: Byte) {
    forall i :: 0 <= i < |b| ==> b[i] == x
  }

  lemma ZeroGroup()
    ensures |Enc3(0, 0, 0, STD)| == 4 && AllOf(Enc3(0, 0, 0, STD), 65)
  {
    assert EncSix(0, STD) == 65;
    hide EncSix;
  }

  lemma {:induction false} ZeroesEncode(b: Bytes)
    requires AllOf(b, 0) && |b| % 3 == 0
    ensures |EncodeRaw(b, STD)| == |b| / 3 * 4 && AllOf(EncodeRaw(b, STD), 65)
    decreases |b|
  {
    if b != [] {
      assert b[0] == 0 && b[1] == 0 && b[2] == 0 && AllOf(b[3..], 0);
      ZeroesEncode(b[3..]);
      assert EncodeRaw(b, STD) == Enc3(0, 0, 0, STD) + EncodeRaw(b[3..], STD);
      ZeroGroup();
      hide EncodeRaw, Enc3;
      assert |b[3..]| == |b| - 3;
    }
  }

  lemma {:induction false} LettersAreHex(s: Bytes)
    requires AllOf(s, 65) && |s| % 2 == 0
    ensures HexDecode(s).Some?
    decreases |s|
  {
    if s != [] {
      LettersAreHex(s[2..]);
    }
  }

  /** 33 zero bytes: their base64 text is 44 letters A, which is hexadecimal for other bytes. */
  lemma ZeroesMisread(b: Bytes)
    requires |b| == 33 && AllOf(b, 0)
    ensures RootText(Encode(b, StdRaw)) != HexEncode(b[..ROOT_BYTES])
  {
    hide Encode, HexLike, RootText, HexEncode, AllOf;
    ZeroesHexLike(b);
    RootOfEncoding(b, StdRaw);
  }

  lemma ZeroesHexLike(b: Bytes)
    requires |b| == 33 && AllOf(b, 0)
    ensures HexLike(Encode(b, StdRaw))
  {
    hide EncodeRaw, HexDecode, AllOf;
    ZeroesEncode(b);
    var s := EncodeRaw(b, STD);
    assert Encode(b, StdRaw) == s && |s| == 44;
    LettersAreHex(s);
  }
}
