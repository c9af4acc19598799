/** Base64 over bytes (sections 4 and 5 of RFC 4648, section 6.8 of RFC 2045). Shifts and
    masks of the source are written as divisions and remainders. */
module Base64 {
  import opened Text

  type Byte = b: int | 0 <= b < 256

  type Bytes = seq<Byte>

  type Six = n: int | 0 <= n < 64

  /** The two alphabets differ in their last two characters. */
  datatype Alphabet = Alphabet(c62: Byte, c63: Byte)

  /** `+` and `/`. */
  const STD := Alphabet(43, 47)
  /** `-` and `_`. */
  const URL := Alphabet(45, 95)
  /** `=`. */
  const PAD: Byte := 61

  ghost predicate Usable(al: Alphabet) {
    al == STD || al == URL
  }

  function EncSix(n: Six, al: Alphabet): Byte {
    if n < 26 then 65 + n else if n < 52 then 71 + n else if n < 62 then n - 4 else if n == 62 then al.c62 else al.c63
  }

  function DecSix(c: Byte, al: Alphabet): Option<Six> {
    if 65 <= c <= 90 then Some(c - 65)
    else if 97 <= c <= 122 then Some(c - 71)
    else if 48 <= c <= 57 then Some(c + 4)
    else if c == al.c62 then Some(62)
    else if c == al.c63 then Some(63)
    else None
  }

  lemma SixRoundTrip(n: Six, al: Alphabet)
    requires Usable(al)
    ensures DecSix(EncSix(n, al), al) == Some(n) && EncSix(n, al) != PAD
  {
  }

  /** The digits of base64, by their characters. */
  lemma DigitsMean(n: Six, al: Alphabet)
    ensures n < 26 ==> EncSix(n, al) == 'A' as int + n
    ensures 26 <= n < 52 ==> EncSix(n, al) == 'a' as int + (n - 26)
    ensures 52 <= n < 62 ==> EncSix(n, al) == '0' as int + (n - 52)
    ensures EncSix(62, STD) == '+' as int && EncSix(63, STD) == '/' as int
    ensures EncSix(62, URL) == '-' as int && EncSix(63, URL) == '_' as int && PAD == '=' as int
  {
  }

  function Enc3(a: Byte, b: Byte, c: Byte, al: Alphabet): (r: Bytes)
    ensures |r| == 4
  {
    [EncSix(a / 4, al), EncSix(a % 4 * 16 + b / 16, al), EncSix(b % 16 * 4 + c / 64, al), EncSix(c % 64, al)]
  }

  function Enc2(a: Byte, b: Byte, al: Alphabet): Bytes {
    [EncSix(a / 4, al), EncSix(a % 4 * 16 + b / 16, al), EncSix(b % 16 * 4, al)]
  }

  function Enc1(a: Byte, al: Alphabet): Bytes {
    [EncSix(a / 4, al), EncSix(a % 4 * 16, al)]
  }

  /** Encoding without padding. */
  function EncodeRaw(b: Bytes, al: Alphabet): Bytes {
    if |b| == 0 then []
    else if |b| == 1 then Enc1(b[0], al)
    else if |b| == 2 then Enc2(b[0], b[1], al)
    else Enc3(b[0], b[1], b[2], al) + EncodeRaw(b[3..], al)
  }

  function Padding(n: nat): Bytes {
    if n % 3 == 1 then [PAD, PAD] else if n % 3 == 2 then [PAD] else []
  }

  function EncodePadded(b: Bytes, al: Alphabet): Bytes {
    EncodeRaw(b, al) + Padding(|b|)
  }

  /** Decoding without padding; unused low bits of the last character are ignored. */
  function DecodeRaw(s: Bytes, al: Alphabet): Option<Bytes> {
    if |s| == 0 then Some([])
    else if |s| == 1 || DecSix(s[0], al).None? || DecSix(s[1], al).None? then None
    else
      var x, y := DecSix(s[0], al).value, DecSix(s[1], al).value;
      if |s| == 2 then Some([x * 4 + y / 16])
      else if DecSix(s[2], al).None? then None
      else
        var z := DecSix(s[2], al).value;
        if |s| == 3 then Some([x * 4 + y / 16, y % 16 * 16 + z / 4])
        else if DecSix(s[3], al).None? then None
        else
          var w := DecSix(s[3], al).value;
          var rest := DecodeRaw(s[4..], al);
          if rest.None? then None
          else Some([x * 4 + y / 16, y % 16 * 16 + z / 4, z % 4 * 64 + w] + rest.value)
  }

  /** Decoding a padded text: whole groups of four, with one or two `=` closing the last. */
  function DecodePadded(s: Bytes, al: Alphabet): Option<Bytes> {
    if |s| % 4 != 0 then None
    else if |s| >= 2 && s[|s| - 1] == PAD && s[|s| - 2] == PAD then DecodeRaw(s[..|s| - 2], al)
    else if |s| >= 1 && s[|s| - 1] == PAD then DecodeRaw(s[..|s| - 1], al)
    else DecodeRaw(s, al)
  }

  lemma GroupRoundTrip(a: Byte, b: Byte, c: Byte)
    ensures var x, y, z, w := a / 4, a % 4 * 16 + b / 16, b % 16 * 4 + c / 64, c % 64;
      && x * 4 + y / 16 == a && y % 16 * 16 + z / 4 == b && z % 4 * 64 + w == c
  {
  }

  lemma DecodeGroup3(a: Byte, b: Byte, c: Byte, rest: Bytes, tail: Bytes, al: Alphabet)
    requires Usable(al) && DecodeRaw(rest, al) == Some(tail)
    ensures DecodeRaw(Enc3(a, b, c, al) + rest, al) == Some([a, b, c] + tail)
  {
    SixRoundTrip(a / 4, al);
    SixRoundTrip(a % 4 * 16 + b / 16, al);
    SixRoundTrip(b % 16 * 4 + c / 64, al);
    SixRoundTrip(c % 64, al);
    GroupRoundTrip(a, b, c);
    hide EncSix, DecSix;
    assert (Enc3(a, b, c, al) + rest)[4..] == rest;
  }

  lemma DecodeLast(a: Byte, b: Byte, al: Alphabet)
    requires Usable(al)
    ensures DecodeRaw(Enc1(a, al), al) == Some([a])
    ensures DecodeRaw(Enc2(a, b, al), al) == Some([a, b])
  {
    SixRoundTrip(a / 4, al);
    SixRoundTrip(a % 4 * 16, al);
    SixRoundTrip(a % 4 * 16 + b / 16, al);
    SixRoundTrip(b % 16 * 4, al);
    GroupRoundTrip(a, b, 0);
    GroupRoundTrip(a, 0, 0);
    hide EncSix, DecSix;
  }

  /** Decoding undoes encoding. */
  lemma {:induction false} RawRoundTrip(b: Bytes, al: Alphabet)
    requires Usable(al)
    ensures DecodeRaw(EncodeRaw(b, al), al) == Some(b)
  {
    hide Enc1, Enc2, Enc3, DecodeRaw;
    if |b| == 0 {
      DecodeEmpty(al);
    } else if |b| == 1 {
      assert b == [b[0]];
      DecodeLast(b[0], 0, al);
    } else if |b| == 2 {
      assert b == [b[0], b[1]];
      DecodeLast(b[0], b[1], al);
    } else {
      RawRoundTrip(b[3..], al);
      DecodeGroup3(b[0], b[1], b[2], EncodeRaw(b[3..], al), b[3..], al);
      assert b == [b[0], b[1], b[2]] + b[3..];
    }
  }

  lemma DecodeEmpty(al: Alphabet)
    ensures DecodeRaw([], al) == Some([])
  {
  }

  /** The alphabet: letters, digits and the two extra characters. */
  predicate InAlphabet(c: Byte, al: Alphabet) {
    65 <= c <= 90 || 97 <= c <= 122 || 48 <= c <= 57 || c == al.c62 || c == al.c63
  }

  lemma {:induction false} RawAlphabet(b: Bytes, al: Alphabet)
    ensures forall i :: 0 <= i < |EncodeRaw(b, al)| ==> InAlphabet(EncodeRaw(b, al)[i], al)
    ensures |EncodeRaw(b, al)| == |b| / 3 * 4 + (if |b| % 3 == 0 then 0 else |b| % 3 + 1)
  {
    if |b| >= 3 {
      RawAlphabet(b[3..], al);
      hide EncSix;
      EncSixInAlphabet(b[0] / 4, al);
      EncSixInAlphabet(b[0] % 4 * 16 + b[1] / 16, al);
      EncSixInAlphabet(b[1] % 16 * 4 + b[2] / 64, al);
      EncSixInAlphabet(b[2] % 64, al);
    }
  }

  lemma EncSixInAlphabet(n: Six, al: Alphabet)
    ensures InAlphabet(EncSix(n, al), al)
  {
  }

  lemma DecSixInAlphabet(c: Byte, al: Alphabet)
    ensures DecSix(c, al).Some? <==> InAlphabet(c, al)
  {
  }

  /** Text decodes exactly when it is all of the alphabet and its length is possible. */
  lemma {:induction false} DecodesExactly(s: Bytes, al: Alphabet)
    ensures DecodeRaw(s, al).Some? <==> |s| % 4 != 1 && forall i :: 0 <= i < |s| ==> InAlphabet(s[i], al)
    decreases |s|
  {
    forall i | 0 <= i < |s| ensures DecSix(s[i], al).Some? <==> InAlphabet(s[i], al) {
      DecSixInAlphabet(s[i], al);
    }
    if |s| >= 4 {
      DecodesExactly(s[4..], al);
      assert |s[4..]| % 4 == |s| % 4;
      hide DecSix, InAlphabet;
      assert forall i :: 4 <= i < |s| ==> s[i] == s[4..][i - 4];
    }
  }

  // ----- padding -----

  lemma PaddingBy(n: nat)
    ensures Padding(n) == if n % 3 == 1 then [PAD, PAD] else if n % 3 == 2 then [PAD] else []
  {
  }

  lemma UnpadNone(raw: Bytes, k: nat, al: Alphabet)
    requires |raw| == 4 * k && PAD !in raw
    ensures DecodePadded(raw, al) == DecodeRaw(raw, al)
  {
    hide DecodeRaw;
    assert |raw| > 0 ==> raw[|raw| - 1] in raw;
  }

  lemma UnpadTwo(raw: Bytes, k: nat, al: Alphabet)
    requires |raw| == 4 * k + 2
    ensures DecodePadded(raw + [PAD, PAD], al) == DecodeRaw(raw, al)
  {
    hide DecodeRaw;
    assert |raw + [PAD, PAD]| == 4 * (k + 1);
    assert (raw + [PAD, PAD])[..|raw|] == raw;
  }

  lemma UnpadOne(raw: Bytes, k: nat, al: Alphabet)
    requires |raw| == 4 * k + 3 && PAD !in raw
    ensures DecodePadded(raw + [PAD], al) == DecodeRaw(raw, al)
  {
    hide DecodeRaw;
    assert raw[|raw| - 1] in raw;
    assert |raw + [PAD]| == 4 * (k + 1);
    assert (raw + [PAD])[..|raw|] == raw;
  }

  lemma RawHasNoPad(b: Bytes, al: Alphabet)
    requires Usable(al)
    ensures PAD !in EncodeRaw(b, al)
  {
    RawAlphabet(b, al);
    hide EncodeRaw;
  }

  /** Under any alphabet, reading a padded text is reading it without its padding. */
  lemma Unpad(b: Bytes, al: Alphabet, other: Alphabet)
    requires Usable(al)
    ensures DecodePadded(EncodePadded(b, al), other) == DecodeRaw(EncodeRaw(b, al), other)
  {
    var raw := EncodeRaw(b, al);
    var k, r := |b| / 3, |b| % 3;
    RawAlphabet(b, al);
    RawHasNoPad(b, al);
    hide EncodeRaw, DecodeRaw, Padding, DecodePadded;
    PaddingBy(|b|);
    if r == 0 {
      assert EncodePadded(b, al) == raw;
      UnpadNone(raw, k, other);
    } else if r == 1 {
      UnpadTwo(raw, k, other);
    } else {
      UnpadOne(raw, k, other);
    }
  }

  lemma PaddedRoundTrip(b: Bytes, al: Alphabet)
    requires Usable(al)
    ensures DecodePadded(EncodePadded(b, al), al) == Some(b)
  {
    Unpad(b, al, al);
    RawRoundTrip(b, al);
  }

  // ----- bytes as text -----

  function Chars(b: Bytes): (r: string)
    ensures |r| == |b| && forall i :: 0 <= i < |b| ==> r[i] == b[i] as char
  {
    seq(|b|, i requires 0 <= i < |b| => b[i] as char)
  }

  lemma CharsInjective(a: Bytes, b: Bytes)
    requires Chars(a) == Chars(b)
    ensures a == b
  {
    assert |a| == |b|;
    forall i | 0 <= i < |a| ensures a[i] == b[i] {
      assert Chars(a)[i] == a[i] as char && Chars(b)[i] == b[i] as char;
    }
  }
}
