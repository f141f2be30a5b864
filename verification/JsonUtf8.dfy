/**
 `codePointToUTF8`, with the decoder of section 3 of RFC 3629 as its partner.
 Shifts and masks are written as division and remainder by powers of two.
 */
module JsonUtf8 {
  import opened Options

  const MAX_CODE_POINT := 0x10FFFF

  predicate Surrogate(cp: nat) {
    0xD800 <= cp <= 0xDFFF
  }

  function Byte(n: nat): char
    requires n < 256
  {
    n as char
  }

  /** A continuation byte carrying six bits. */
  function Continuation(bits: nat): char {
    Byte(0x80 + bits % 64)
  }

  /** Code points above 0x10FFFF give the empty string. */
  function CodePointToUTF8(cp: nat): string {
    if cp <= 0x7F then [Byte(cp)]
    else if cp <= 0x7FF then [Byte(0xC0 + (cp / 64) % 32), Continuation(cp)]
    else if cp <= 0xFFFF then [Byte(0xE0 + (cp / 4096) % 16), Continuation(cp / 64), Continuation(cp)]
    else if cp <= MAX_CODE_POINT then
      [Byte(0xF0 + (cp / 262144) % 8), Continuation(cp / 4096), Continuation(cp / 64), Continuation(cp)]
    else ""
  }

  function SixBits(c: char): Option<nat> {
    if 0x80 <= c as int <= 0xBF then Some(c as int - 0x80) else None
  }

  /**
   Decodes one complete sequence.  Overlong forms and values out of range are refused;
   `strict` also refuses surrogates, as the RFC does.
   */
  function Decode(s: string, strict: bool): Option<nat> {
    if |s| == 1 then
      if s[0] as int <= 0x7F then Some(s[0] as int) else None
    else if |s| == 2 then
      var a := SixBits(s[1]);
      if 0xC2 <= s[0] as int <= 0xDF && a.Some?
      then Some((s[0] as int - 0xC0) * 64 + a.value) else None
    else if |s| == 3 then
      var a, b := SixBits(s[1]), SixBits(s[2]);
      if 0xE0 <= s[0] as int <= 0xEF && a.Some? && b.Some? then
        var cp := (s[0] as int - 0xE0) * 4096 + a.value * 64 + b.value;
        if cp < 0x800 || (strict && Surrogate(cp)) then None else Some(cp)
      else None
    else if |s| == 4 then
      var a, b, c := SixBits(s[1]), SixBits(s[2]), SixBits(s[3]);
      if 0xF0 <= s[0] as int <= 0xF7 && a.Some? && b.Some? && c.Some? then
        var cp := (s[0] as int - 0xF0) * 262144 + a.value * 4096 + b.value * 64 + c.value;
        if cp < 0x10000 || cp > MAX_CODE_POINT then None else Some(cp)
      else None
    else None
  }

  lemma SixBitsOfContinuation(bits: nat)
    ensures SixBits(Continuation(bits)) == Some(bits % 64)
  {
  }

  lemma SplitTwo(cp: nat)
    ensures cp == cp / 64 * 64 + cp % 64
  {
  }

  lemma SplitThree(cp: nat)
    ensures cp == cp / 4096 * 4096 + cp / 64 % 64 * 64 + cp % 64
  {
    SplitTwo(cp);
    SplitTwo(cp / 64);
    assert cp / 64 / 64 == cp / 4096;
  }

  lemma SplitFour(cp: nat)
    ensures cp == cp / 262144 * 262144 + cp / 4096 % 64 * 4096 + cp / 64 % 64 * 64 + cp % 64
  {
    SplitThree(cp);
    SplitTwo(cp / 4096);
    assert cp / 4096 / 64 == cp / 262144;
  }

  lemma ThreeByteRoundTrip(cp: nat, strict: bool)
    requires 0x7FF < cp <= 0xFFFF
    ensures Decode(CodePointToUTF8(cp), strict) == if strict && Surrogate(cp) then None else Some(cp)
  {
    SplitThree(cp);
    SixBitsOfContinuation(cp / 64);
    SixBitsOfContinuation(cp);
    assert cp / 4096 % 16 == cp / 4096;
  }

  lemma FourByteRoundTrip(cp: nat, strict: bool)
    requires 0xFFFF < cp <= MAX_CODE_POINT
    ensures Decode(CodePointToUTF8(cp), strict) == Some(cp)
  {
    SplitFour(cp);
    SixBitsOfContinuation(cp / 4096);
    SixBitsOfContinuation(cp / 64);
    SixBitsOfContinuation(cp);
    assert cp / 262144 % 8 == cp / 262144;
  }

  /** The encoder is inverted by the decoder; the strict one refuses exactly the surrogates. */
  lemma EncodeDecode(cp: nat, strict: bool)
    requires cp <= MAX_CODE_POINT
    ensures Decode(CodePointToUTF8(cp), strict) == if strict && Surrogate(cp) then None else Some(cp)
  {
    if cp <= 0x7F {
    } else if cp <= 0x7FF {
      SplitTwo(cp);
      SixBitsOfContinuation(cp);
      assert cp / 64 % 32 == cp / 64;
    } else if cp <= 0xFFFF {
      ThreeByteRoundTrip(cp, strict);
    } else {
      FourByteRoundTrip(cp, strict);
    }
  }

  /** Distinct code points have distinct encodings, surrogates included. */
  lemma EncodeInjective(a: nat, b: nat)
    requires a <= MAX_CODE_POINT && b <= MAX_CODE_POINT
    requires CodePointToUTF8(a) == CodePointToUTF8(b)
    ensures a == b
  {
    EncodeDecode(a, false);
    EncodeDecode(b, false);
  }

  /** The first characters of the examples of section 7 of RFC 3629. */
  lemma KnownEncodings()
    ensures CodePointToUTF8(0x41) == "A"
    ensures CodePointToUTF8(0x391) == [0xCE as char, 0x91 as char]
    ensures CodePointToUTF8(0xD55C) == [0xED as char, 0x95 as char, 0x9C as char]
    ensures CodePointToUTF8(0x233B4) == [0xF0 as char, 0xA3 as char, 0x8E as char, 0xB4 as char]
  {
  }
}
