/**
 String text: `valueToQuotedStringN` escapes, `decodeString` unescapes.
 */
module JsonString {
  import opened JsonUtf8
  import opened Options

  const BACKSPACE := 8 as char
  const FORM_FEED := 12 as char

  /** The errors `decodeString` and its helpers record. */
  datatype StringError =
    | EmptyEscape
    | BadEscape
    | FourDigitsExpected
    | HexDigitExpected
    | SurrogatePairTooShort
    | SurrogatePairExpected

  datatype Result<+T> = Success(value: T) | Failure(error: StringError)

  /** A control character, the NUL included. */
  predicate IsControl(c: char) {
    c as int <= 0x1F
  }

  predicate NeedsEscape(c: char) {
    c == '\"' || c == '\\' || IsControl(c)
  }

  function HexDigit(d: nat): char
    requires d < 16
  {
    if d < 10 then (48 + d) as char else (55 + d) as char
  }

  /** Four upper-case hexadecimal digits. */
  function HexText(n: nat): string
    requires n <= 0xFFFF
  {
    [HexDigit(n / 4096), HexDigit(n / 256 % 16), HexDigit(n / 16 % 16), HexDigit(n % 16)]
  }

  function Escape(c: char): (s: string)
    ensures |s| == 1 || |s| == 2 || |s| == 6
  {
    if c == '\"' then "\\\""
    else if c == '\\' then "\\\\"
    else if c == BACKSPACE then "\\b"
    else if c == FORM_FEED then "\\f"
    else if c == '\n' then "\\n"
    else if c == '\r' then "\\r"
    else if c == '\t' then "\\t"
    else if IsControl(c) then "\\u" + HexText(c as int)
    else [c]
  }

  function Escaped(s: string): string {
    if s == "" then "" else Escape(s[0]) + Escaped(s[1..])
  }

  /** The quoted text of a string. */
  function Quote(s: string): string {
    "\"" + Escaped(s) + "\""
  }

  lemma {:induction false} EscapedAppend(s: string, c: char)
    ensures Escaped(s + [c]) == Escaped(s) + Escape(c)
  {
    hide Escape;
    if s == "" {
      assert s + [c] == [c];
      assert Escaped([c]) == Escape(c) + Escaped("");
    } else {
      EscapedAppend(s[1..], c);
      assert (s + [c])[1..] == s[1..] + [c];
    }
  }

  lemma {:induction false} EscapedPlain(s: string)
    requires forall i :: 0 <= i < |s| ==> !NeedsEscape(s[i])
    ensures Escaped(s) == s
  {
    if s != "" {
      EscapedPlain(s[1..]);
      assert s == [s[0]] + s[1..];
    }
  }

  /** The escaped text holds no control character, as section 7 of RFC 8259 asks. */
  lemma {:induction false} EscapedHasNoControl(s: string)
    ensures forall i :: 0 <= i < |Escaped(s)| ==> Escaped(s)[i] >= ' '
  {
    if s != "" {
      EscapedHasNoControl(s[1..]);
      var e, rest := Escape(s[0]), Escaped(s[1..]);
      assert forall i :: 0 <= i < |e| ==> e[i] >= ' ';
      assert Escaped(s) == e + rest;
    }
  }

  /** `valueToQuotedStringN`: text free of special characters is copied in one piece. */
  method ValueToQuotedStringN(value: string) returns (result: string)
    ensures result == Quote(value)
  {
    hide Escape, NeedsEscape;
    var plain := forall i :: 0 <= i < |value| ==> !NeedsEscape(value[i]);
    if plain {
      EscapedPlain(value);
      return "\"" + value + "\"";
    }
    result := "\"";
    var c := 0;
    while c != |value|
      invariant c <= |value| && result == "\"" + Escaped(value[..c])
    {
      EscapedAppend(value[..c], value[c]);
      assert value[..c] + [value[c]] == value[..c+1];
      result := result + Escape(value[c]);
      c := c + 1;
    }
    assert value[..c] == value;
    result := result + "\"";
  }

  function HexValue(c: char): Option<nat> {
    if '0' <= c <= '9' then Some(c as int - 48)
    else if 'a' <= c <= 'f' then Some(c as int - 87)
    else if 'A' <= c <= 'F' then Some(c as int - 55)
    else None
  }

  /** `decodeUnicodeEscapeSequence`: the four hexadecimal digits at `current`. */
  function UnicodeEscape(text: string, current: nat, end: nat): (r: Result<nat>)
    requires current <= end <= |text|
    ensures r.Success? ==> current + 4 <= end && r.value <= 0xFFFF
  {
    if end - current < 4 then Failure(FourDigitsExpected)
    else
      match (HexValue(text[current]), HexValue(text[current+1]), HexValue(text[current+2]), HexValue(text[current+3]))
      case (Some(a), Some(b), Some(c), Some(d)) => Success(((a * 16 + b) * 16 + c) * 16 + d)
      case _ => Failure(HexDigitExpected)
  }

  /** `decodeUnicodeCodePoint`: a code point and the position after it; a high surrogate takes a second escape. */
  function CodePoint(text: string, current: nat, end: nat): (r: Result<(nat, nat)>)
    requires current <= end <= |text|
    ensures r.Success? ==> r.value.0 <= MAX_CODE_POINT && current < r.value.1 <= end
  {
    match UnicodeEscape(text, current, end)
    case Failure(e) => Failure(e)
    case Success(unicode) =>
      var next := current + 4;
      if !(0xD800 <= unicode <= 0xDBFF) then Success((unicode, next))
      else if end - next < 6 then Failure(SurrogatePairTooShort)
      else if text[next] != '\\' || text[next+1] != 'u' then Failure(SurrogatePairExpected)
      else
        match UnicodeEscape(text, next + 2, end)
        case Failure(e) => Failure(e)
        case Success(low) => Success((0x10000 + unicode % 0x400 * 0x400 + low % 0x400, next + 6))
  }

  /** The character a one-letter escape stands for. */
  function SimpleEscape(c: char): Option<char> {
    match c
    case '\"' => Some('\"')
    case '/' => Some('/')
    case '\\' => Some('\\')
    case 'b' => Some(BACKSPACE)
    case 'f' => Some(FORM_FEED)
    case 'n' => Some('\n')
    case 'r' => Some('\r')
    case 't' => Some('\t')
    case _ => None
  }

  function Prepend(s: string, r: Result<string>): Result<string> {
    if r.Success? then Success(s + r.value) else r
  }

  /** The meaning of the string body between `current` and `end`. */
  function DecodeBody(text: string, current: nat, end: nat): Result<string>
    requires current <= end <= |text|
    decreases end - current
  {
    if current == end || text[current] == '\"' then Success("")
    else if text[current] != '\\' then Prepend([text[current]], DecodeBody(text, current + 1, end))
    else if current + 1 == end then Failure(EmptyEscape)
    else if text[current+1] == 'u' then
      match CodePoint(text, current + 2, end)
      case Failure(e) => Failure(e)
      case Success((cp, next)) => Prepend(CodePointToUTF8(cp), DecodeBody(text, next, end))
    else
      match SimpleEscape(text[current+1])
      case None => Failure(BadEscape)
      case Some(c) => Prepend([c], DecodeBody(text, current + 2, end))
  }

  /** The meaning of a string token, quotes included. */
  function DecodeQuoted(token: string): Result<string>
    requires |token| >= 2
  {
    DecodeBody(token, 1, |token| - 1)
  }

  lemma PrependNothing(r: Result<string>)
    ensures Prepend("", r) == r
  {
    if r.Success? {
      assert "" + r.value == r.value;
    }
  }

  lemma PrependTwice(a: string, b: string, r: Result<string>)
    ensures Prepend(a + b, r) == Prepend(a, Prepend(b, r))
  {
    if r.Success? {
      assert (a + b) + r.value == a + (b + r.value);
    }
  }

  /** `decodeString` on the text of a string token. */
  method DecodeString(token: string) returns (r: Result<string>)
    requires |token| >= 2
    ensures r == DecodeQuoted(token)
  {
    var decoded := "";
    var current := 1;
    var end := |token| - 1;
    PrependNothing(DecodeQuoted(token));
    while current != end
      invariant 1 <= current <= end
      invariant Prepend(decoded, DecodeBody(token, current, end)) == DecodeQuoted(token)
      decreases end - current
    {
      var c := token[current];
      if c == '\"' {
        break;
      } else if c == '\\' {
        if current + 1 == end {
          return Failure(EmptyEscape);
        }
        var escape := token[current+1];
        if escape == 'u' {
          var point := CodePoint(token, current + 2, end);
          if point.Failure? {
            return Failure(point.error);
          }
          PrependTwice(decoded, CodePointToUTF8(point.value.0), DecodeBody(token, point.value.1, end));
          decoded := decoded + CodePointToUTF8(point.value.0);
          current := point.value.1;
        } else {
          var simple := SimpleEscape(escape);
          if simple.None? {
            return Failure(BadEscape);
          }
          PrependTwice(decoded, [simple.value], DecodeBody(token, current + 2, end));
          decoded := decoded + [simple.value];
          current := current + 2;
        }
      } else {
        PrependTwice(decoded, [c], DecodeBody(token, current + 1, end));
        decoded := decoded + [c];
        current := current + 1;
      }
    }
    assert decoded + "" == decoded;
    return Success(decoded);
  }

  /** Hexadecimal digits are read in either case, and nothing else is. */
  lemma HexValueExactly(c: char)
    ensures match HexValue(c)
            case Some(v) => v < 16 && (c == "0123456789ABCDEF"[v] || c == "0123456789abcdef"[v])
            case None => c !in "0123456789ABCDEF" && c !in "0123456789abcdef"
  {
  }

  /** One step of decoding a string token: a plain character, one of the eight short escapes, or an error. */
  lemma DecodeStep(text: string, current: nat, end: nat)
    requires current < end <= |text| && text[current] != '\"'
    ensures text[current] != '\\' ==> DecodeBody(text, current, end) == Prepend([text[current]], DecodeBody(text, current + 1, end))
    ensures text[current] == '\\' && current + 1 < end && text[current+1] in "\"/\\bfnrt" ==>
              var c := match text[current+1]
                       case 'b' => 8 as char
                       case 'f' => 12 as char
                       case 'n' => 10 as char
                       case 'r' => 13 as char
                       case 't' => 9 as char
                       case c => c;
              DecodeBody(text, current, end) == Prepend([c], DecodeBody(text, current + 2, end))
    ensures text[current] == '\\' && (current + 1 < end ==> text[current+1] !in "\"/\\bfnrtu") ==> DecodeBody(text, current, end).Failure?
  {
  }

  lemma HexDigitValue(d: nat)
    requires d < 16
    ensures HexValue(HexDigit(d)) == Some(d)
  {
  }

  lemma FourHexDigits(n: nat)
    requires n <= 0xFFFF
    ensures ((n / 4096 * 16 + n / 256 % 16) * 16 + n / 16 % 16) * 16 + n % 16 == n
  {
    assert n / 256 / 16 == n / 4096 && n / 16 / 16 == n / 256;
  }

  lemma HexTextValue(n: nat, text: string, p: nat, end: nat)
    requires n <= 0xFFFF && p + 4 <= end <= |text| && text[p..p+4] == HexText(n)
    ensures UnicodeEscape(text, p, end) == Success(n)
  {
    var t := text[p..p+4];
    assert text[p] == t[0] && text[p+1] == t[1] && text[p+2] == t[2] && text[p+3] == t[3];
    HexDigitValue(n / 4096);
    HexDigitValue(n / 256 % 16);
    HexDigitValue(n / 16 % 16);
    HexDigitValue(n % 16);
    FourHexDigits(n);
  }

  /** One escaped character decodes to itself. */
  lemma DecodeOne(c: char, text: string, current: nat, next: nat, end: nat)
    requires current <= next <= end <= |text| && text[current..next] == Escape(c)
    ensures current < next
    ensures DecodeBody(text, current, end) == Prepend([c], DecodeBody(text, next, end))
  {
    var e := text[current..next];
    assert text[current] == e[0];
    if |e| == 2 {
      assert text[current+1] == e[1];
    } else if |e| == 6 {
      assert text[current+1] == e[1];
      assert text[current+2..next] == e[2..] == HexText(c as int);
      HexTextValue(c as int, text, current + 2, end);
      assert CodePointToUTF8(c as int) == [c];
    }
  }

  /** Unescaping the escaped text restores every string, control characters and NUL included. */
  lemma {:induction false} DecodeEscaped(s: string, text: string, current: nat, end: nat)
    requires current <= end <= |text| && text[current..end] == Escaped(s)
    ensures DecodeBody(text, current, end) == Success(s)
  {
    if s != "" {
      hide Escape, DecodeBody;
      var e := Escape(s[0]);
      var next := current + |e|;
      assert Escaped(s) == e + Escaped(s[1..]);
      assert text[current..next] == text[current..end][..|e|] == e;
      assert text[next..end] == text[current..end][|e|..] == Escaped(s[1..]);
      DecodeOne(s[0], text, current, next, end);
      DecodeEscaped(s[1..], text, next, end);
      assert s == [s[0]] + s[1..];
    }
  }

  lemma QuoteRoundTrip(s: string)
    ensures |Quote(s)| >= 2 && DecodeQuoted(Quote(s)) == Success(s)
  {
    var q := Quote(s);
    assert q[1..|q|-1] == Escaped(s);
    DecodeEscaped(s, q, 1, |q| - 1);
  }

  /** The escape of a code point: one `\u` sequence, or a surrogate pair above the basic plane. */
  function UnicodeEscapeText(cp: nat): string
    requires cp <= MAX_CODE_POINT
  {
    if cp <= 0xFFFF then "\\u" + HexText(cp)
    else "\\u" + HexText(0xD800 + (cp - 0x10000) / 0x400) + "\\u" + HexText(0xDC00 + (cp - 0x10000) % 0x400)
  }

  lemma BasicEscape(cp: nat, t: string)
    requires cp <= 0xFFFF && !(0xD800 <= cp <= 0xDBFF)
    requires t == "\"\\u" + HexText(cp) + "\""
    ensures CodePoint(t, 3, |t| - 1) == Success((cp, |t| - 1))
  {
    assert t[3..7] == HexText(cp);
    HexTextValue(cp, t, 3, |t| - 1);
  }

  lemma LowTenBits(n: nat, base: nat)
    requires base == 0xD800 || base == 0xDC00
    requires base <= n < base + 0x400
    ensures n % 0x400 == n - base
  {
  }

  lemma SurrogatePairEscape(high: nat, low: nat, t: string)
    requires 0xD800 <= high <= 0xDBFF && low <= 0xFFFF
    requires |t| == 14 && t[3..7] == HexText(high) && t[7] == '\\' && t[8] == 'u' && t[9..13] == HexText(low)
    ensures CodePoint(t, 3, 13) == Success((0x10000 + (high - 0xD800) * 0x400 + low % 0x400, 13))
  {
    hide HexText, UnicodeEscape;
    HexTextValue(high, t, 3, 13);
    HexTextValue(low, t, 9, 13);
    LowTenBits(high, 0xD800);
  }

  lemma DecodeSingleEscape(t: string, cp: nat)
    requires |t| >= 4 && t[1] == '\\' && t[2] == 'u'
    requires CodePoint(t, 3, |t| - 1) == Success((cp, |t| - 1))
    ensures DecodeQuoted(t) == Success(CodePointToUTF8(cp))
  {
    assert DecodeBody(t, |t| - 1, |t| - 1) == Success("");
    assert CodePointToUTF8(cp) + "" == CodePointToUTF8(cp);
  }

  /** Every scalar value written as an escape (section 7 of RFC 8259) decodes to its UTF-8 encoding. */
  lemma EscapedCodePoint(cp: nat)
    requires cp <= MAX_CODE_POINT && !Surrogate(cp)
    ensures DecodeQuoted("\"" + UnicodeEscapeText(cp) + "\"") == Success(CodePointToUTF8(cp))
  {
    var t := "\"" + UnicodeEscapeText(cp) + "\"";
    var end := |t| - 1;
    if cp <= 0xFFFF {
      assert t == "\"\\u" + HexText(cp) + "\"";
      BasicEscape(cp, t);
    } else {
      var high, low := 0xD800 + (cp - 0x10000) / 0x400, 0xDC00 + (cp - 0x10000) % 0x400;
      assert t[3..7] == HexText(high) && t[9..13] == HexText(low);
      SurrogatePairEscape(high, low, t);
      LowTenBits(low, 0xDC00);
      assert 0x10000 + (high - 0xD800) * 0x400 + (low - 0xDC00) == cp;
    }
    DecodeSingleEscape(t, cp);
  }

  /** A low surrogate by itself is decoded to bytes that are not UTF-8. */
  lemma LoneLowSurrogate(cp: nat)
    requires 0xDC00 <= cp <= 0xDFFF
    ensures DecodeQuoted("\"\\u" + HexText(cp) + "\"") == Success(CodePointToUTF8(cp))
    ensures Decode(CodePointToUTF8(cp), true).None?
  {
    var t := "\"\\u" + HexText(cp) + "\"";
    BasicEscape(cp, t);
    DecodeSingleEscape(t, cp);
    EncodeDecode(cp, true);
  }

  /** Behind a high surrogate any escape passes for the low one. */
  lemma AnySecondHalf(high: nat, second: nat)
    requires 0xD800 <= high <= 0xDBFF && second <= 0xFFFF
    ensures DecodeQuoted("\"\\u" + HexText(high) + "\\u" + HexText(second) + "\"") ==
              Success(CodePointToUTF8(0x10000 + (high - 0xD800) * 0x400 + second % 0x400))
  {
    var t := "\"\\u" + HexText(high) + "\\u" + HexText(second) + "\"";
    assert t[3..7] == HexText(high) && t[9..13] == HexText(second);
    SurrogatePairEscape(high, second, t);
    DecodeSingleEscape(t, 0x10000 + (high - 0xD800) * 0x400 + second % 0x400);
  }
}
