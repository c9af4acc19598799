/** The line-wrapping encoder for attachments: internal/mail/imap_smtp.go, base64LineEncoder. */
module Base64Lines {
  import opened Text
  import opened Lists
  import opened Base64

  const LINE_BYTES := 57
  const CRLF: Bytes := [13, 10]

  /** The text of a whole buffer: one line for every 57 bytes, each ended by CRLF. */
  function EncodedText(b: Bytes): Bytes {
    if b == [] then []
    else
      var n := Min(LINE_BYTES, |b|);
      EncodePadded(b[..n], STD) + CRLF + EncodedText(b[n..])
  }

  /** The four characters for the next one to three bytes. */
  function Group(rest: Bytes): (r: Bytes)
    requires rest != []
    ensures |r| == 4
  {
    var a: Byte := rest[0];
    var b: Byte := if |rest| > 1 then rest[1] else 0;
    var c: Byte := if |rest| > 2 then rest[2] else 0;
    [EncSix(a / 4, STD), EncSix(a % 4 * 16 + b / 16, STD),
     if |rest| > 1 then EncSix(b % 16 * 4 + c / 64, STD) else PAD,
     if |rest| > 2 then EncSix(c % 64, STD) else PAD]
  }

  lemma GroupStep(b: Bytes)
    requires b != []
    ensures EncodePadded(b, STD) == Group(b) + EncodePadded(b[Min(3, |b|)..], STD)
  {
    hide EncSix;
    if |b| >= 3 {
      assert |b| % 3 == |b[3..]| % 3;
      assert Group(b) == Enc3(b[0], b[1], b[2], STD);
    } else {
      assert b[|b|..] == [];
    }
  }

  lemma PaddedEmpty()
    ensures EncodePadded([], STD) == []
  {
  }

  /** Writes one group of four characters at position `j`. */
  method PutGroup(out: array<Byte>, j: nat, a: Byte, b: Byte, c: Byte, two: bool, three: bool)
    requires j + 4 <= out.Length
    modifies out
    ensures out[..j + 4] == old(out[..j]) +
      [EncSix(a / 4, STD), EncSix(a % 4 * 16 + b / 16, STD),
       if two then EncSix(b % 16 * 4 + c / 64, STD) else PAD, if three then EncSix(c % 64, STD) else PAD]
  {
    hide EncSix;
    out[j] := EncSix(a / 4, STD);
    out[j + 1] := EncSix(a % 4 * 16 + b / 16, STD);
    if two {
      out[j + 2] := EncSix(b % 16 * 4 + c / 64, STD);
    } else {
      out[j + 2] := PAD;
    }
    if three {
      out[j + 3] := EncSix(c % 64, STD);
    } else {
      out[j + 3] := PAD;
    }
    assert out[..j] == old(out[..j]);
  }

  /** The inner loop: one line, three bytes at a time, into a fixed buffer. */
  method EncodeLine(chunk: Bytes) returns (line: Bytes)
    ensures line == EncodePadded(chunk, STD)
  {
    hide EncodePadded, EncSix;
    var out := new Byte[(|chunk| + 2) / 3 * 4];
    ghost var groups := (|chunk| + 2) / 3;
    ghost var k := 0;
    var i, j := 0, 0;
    assert chunk[0..] == chunk;
    while i < |chunk|
      invariant i == 3 * k && j == 4 * k && 0 <= k <= groups
      invariant out[..j] + EncodePadded(chunk[Min(i, |chunk|)..], STD) == EncodePadded(chunk, STD)
      decreases |chunk| - i
    {
      ghost var rest := chunk[i..];
      GroupStep(rest);
      assert rest[Min(3, |rest|)..] == chunk[Min(i + 3, |chunk|)..];
      var a, b, c: Byte := chunk[i], 0, 0;
      if i + 1 < |chunk| {
        b := chunk[i + 1];
      }
      if i + 2 < |chunk| {
        c := chunk[i + 2];
      }
      PutGroup(out, j, a, b, c, i + 1 < |chunk|, i + 2 < |chunk|);
      j := j + 4;
      i := i + 3;
      k := k + 1;
    }
    line := out[..];
    PaddedEmpty();
    assert k == groups && j == out.Length;
    assert out[..out.Length] == out[..];
    assert chunk[Min(i, |chunk|)..] == [];
  }

  class LineEncoder {
    var b: Bytes
    /** What the underlying writer received. */
    var written: Bytes

    constructor ()
      ensures b == [] && written == []
    {
      b, written := [], [];
    }

    method Write(p: Bytes) returns (n: nat)
      modifies this`b
      ensures b == old(b) + p && n == |p|
    {
      b := b + p;
      return |p|;
    }

    /** Emits every buffered byte and leaves the buffer empty. */
    method Close()
      modifies this
      ensures b == [] && written == old(written) + EncodedText(old(b))
    {
      hide EncodedText, EncodePadded, CRLF;
      while |b| > 0
        invariant written + EncodedText(b) == old(written) + EncodedText(old(b))
        decreases |b|
      {
        var chunk := b;
        if |chunk| > LINE_BYTES {
          chunk := chunk[..LINE_BYTES];
        }
        TextStep(written, b, chunk);
        var out := EncodeLine(chunk);
        written := written + out;
        written := written + CRLF;
        b := b[|chunk|..];
      }
      TextEmpty();
    }
  }

  lemma TextStep(written: Bytes, b: Bytes, chunk: Bytes)
    requires b != [] && chunk == b[..Min(LINE_BYTES, |b|)]
    ensures written + EncodePadded(chunk, STD) + CRLF + EncodedText(b[|chunk|..]) == written + EncodedText(b)
  {
    TextUnfolds(b, |chunk|);
    hide EncodePadded, CRLF, EncodedText;
    Reassociate(written, EncodePadded(chunk, STD), CRLF, EncodedText(b[|chunk|..]));
  }

  lemma TextUnfolds(b: Bytes, n: nat)
    requires b != [] && n == Min(LINE_BYTES, |b|)
    ensures EncodedText(b) == EncodePadded(b[..n], STD) + CRLF + EncodedText(b[n..])
  {
    hide EncodePadded, CRLF;
  }

  lemma Reassociate(a: Bytes, b: Bytes, c: Bytes, d: Bytes)
    ensures a + b + c + d == a + (b + c + d)
  {
  }

  lemma TextEmpty()
    ensures EncodedText([]) == []
  {
  }

  /** Any number of writes and a close, then another close. */
  method WriteAllThenCloseTwice(parts: seq<Bytes>) returns (first: Bytes, second: Bytes)
    ensures first == EncodedText(Flatten(parts)) && second == first
  {
    var e := new LineEncoder();
    for i := 0 to |parts|
      invariant e.b == Flatten(parts[..i]) && e.written == []
    {
      assert parts[..i + 1] == parts[..i] + [parts[i]];
      FlattenSnoc(parts[..i], parts[i]);
      var _ := e.Write(parts[i]);
    }
    assert parts[..|parts|] == parts;
    e.Close();
    first := e.written;
    e.Close();
    second := e.written;
  }

  // ----- reading the text back -----

  /** The lines of a text, without their CRLF ends. */
  function TextLines(b: Bytes): seq<Bytes> {
    if b == [] then []
    else
      var n := Min(LINE_BYTES, |b|);
      [EncodePadded(b[..n], STD)] + TextLines(b[n..])
  }

  function WithBreaks(lines: seq<Bytes>): Bytes {
    if lines == [] then [] else lines[0] + CRLF + WithBreaks(lines[1..])
  }

  /** Drops carriage returns and line feeds, as a reader of the encoding does. */
  function DropBreaks(s: Bytes): Bytes {
    if s == [] then [] else (if s[0] == 13 || s[0] == 10 then [] else [s[0]]) + DropBreaks(s[1..])
  }

  lemma {:induction false} DropBreaksAppend(s: Bytes, t: Bytes)
    ensures DropBreaks(s + t) == DropBreaks(s) + DropBreaks(t)
  {
    if s == [] {
      assert s + t == t;
    } else {
      assert (s + t)[1..] == s[1..] + t;
      DropBreaksAppend(s[1..], t);
    }
  }

  lemma {:induction false} DropBreaksNone(s: Bytes)
    requires forall i :: 0 <= i < |s| ==> s[i] != 13 && s[i] != 10
    ensures DropBreaks(s) == s
  {
    if s != [] {
      DropBreaksNone(s[1..]);
    }
  }

  lemma PaddedHasNoBreaks(b: Bytes)
    ensures DropBreaks(EncodePadded(b, STD)) == EncodePadded(b, STD)
    ensures |EncodePadded(b, STD)| == |b| / 3 * 4 + (if |b| % 3 == 0 then 0 else 4)
  {
    RawAlphabet(b, STD);
    hide EncodeRaw;
    DropBreaksNone(EncodePadded(b, STD));
  }

  lemma {:induction false} RawConcat(x: Bytes, y: Bytes)
    requires |x| % 3 == 0
    ensures EncodeRaw(x + y, STD) == EncodeRaw(x, STD) + EncodeRaw(y, STD)
  {
    hide Enc1, Enc2, Enc3;
    if x == [] {
      assert x + y == y;
    } else {
      assert (x + y)[3..] == x[3..] + y;
      RawConcat(x[3..], y);
    }
  }

  lemma PaddingOfSum(m: nat, n: nat)
    requires m % 3 == 0
    ensures Padding(m + n) == Padding(n) && Padding(m) == []
  {
    assert (m + n) % 3 == n % 3;
  }

  lemma PaddedConcat(x: Bytes, y: Bytes)
    requires |x| % 3 == 0
    ensures EncodePadded(x + y, STD) == EncodePadded(x, STD) + EncodePadded(y, STD)
  {
    RawConcat(x, y);
    hide EncodeRaw, Padding;
    PaddingOfSum(|x|, |y|);
    assert EncodeRaw(x, STD) + [] == EncodeRaw(x, STD);
  }

  lemma NoBreaksInBreaks()
    ensures DropBreaks(CRLF) == []
  {
    assert CRLF[1..] == [10] && [10][1..] == [];
  }

  /** Without its line breaks, the text is the plain encoding of the whole input. */
  lemma {:induction false} TextIsOneEncoding(b: Bytes)
    ensures DropBreaks(EncodedText(b)) == EncodePadded(b, STD)
  {
    hide EncodePadded, DropBreaks;
    PaddedEmpty();
    if b == [] {
      assert DropBreaks([]) == [] by { DropBreaksNone([]); }
    } else {
      var n := Min(LINE_BYTES, |b|);
      var line := EncodePadded(b[..n], STD);
      TextIsOneEncoding(b[n..]);
      PaddedHasNoBreaks(b[..n]);
      DropBreaksAppend(line + CRLF, EncodedText(b[n..]));
      DropBreaksAppend(line, CRLF);
      NoBreaksInBreaks();
      if n == LINE_BYTES {
        assert b == b[..n] + b[n..];
        PaddedConcat(b[..n], b[n..]);
      } else {
        assert b[..n] == b && b[n..] == [];
      }
    }
  }

  /** The round trip: drop the line breaks, decode, and the input is back. */
  lemma LinesRoundTrip(b: Bytes)
    ensures DecodePadded(DropBreaks(EncodedText(b)), STD) == Some(b)
  {
    TextIsOneEncoding(b);
    PaddedRoundTrip(b, STD);
  }

  lemma BreaksCons(line: Bytes, rest: seq<Bytes>)
    ensures WithBreaks([line] + rest) == line + CRLF + WithBreaks(rest)
  {
    hide CRLF;
    assert ([line] + rest)[1..] == rest;
  }

  predicate FullLine(line: Bytes) {
    |line| == 76 && PAD !in line
  }

  predicate LastLine(line: Bytes) {
    0 < |line| <= 76 && forall k :: 0 <= k < |line| && line[k] == PAD ==> k >= |line| - 2
  }

  lemma LineFacts(b: Bytes)
    requires 0 < |b| <= LINE_BYTES
    ensures LastLine(EncodePadded(b, STD)) && (|b| == LINE_BYTES ==> FullLine(EncodePadded(b, STD)))
  {
    PaddedHasNoBreaks(b);
    RawAlphabet(b, STD);
    hide EncodeRaw;
  }

  /** All lines but the last are full; the last is padded at its end only. */
  predicate WellShaped(lines: seq<Bytes>) {
    && (forall i :: 0 <= i < |lines| - 1 ==> FullLine(lines[i]))
    && (lines != [] ==> LastLine(lines[|lines| - 1]))
  }

  lemma ShapeCons(line: Bytes, rest: seq<Bytes>)
    requires LastLine(line) && (rest != [] ==> FullLine(line)) && WellShaped(rest)
    ensures WellShaped([line] + rest)
  {
    hide LastLine, FullLine;
  }

  /** The shape of the text: lines ended by CRLF, all but the last of exactly 76 characters, with
      padding only at the very end of the last. */
  lemma {:induction false} LineShape(b: Bytes)
    ensures EncodedText(b) == WithBreaks(TextLines(b)) && WellShaped(TextLines(b))
    ensures TextLines(b) == [] <==> b == []
  {
    if b != [] {
      var n := Min(LINE_BYTES, |b|);
      LineFacts(b[..n]);
      hide EncodePadded, FullLine, LastLine, CRLF;
      LineShape(b[n..]);
      var line, rest := EncodePadded(b[..n], STD), TextLines(b[n..]);
      assert TextLines(b) == [line] + rest;
      assert n < LINE_BYTES ==> b[n..] == [];
      TextUnfolds(b, n);
      hide EncodedText, TextLines, WithBreaks, WellShaped;
      BreaksCons(line, rest);
      ShapeCons(line, rest);
    }
  }
}
