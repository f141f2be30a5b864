/**
 Integer text: `uintToString` and `valueToString` print, `decodeNumber` reads back.
 */
module JsonNumber {
  import opened JsonValue
  import opened Options

  type UInt64 = n: int | 0 <= n <= MAX_LARGEST_UINT

  /** `3 * sizeof(LargestUInt) + 1`. */
  const BUFFER_SIZE := 25

  predicate IsDigit(c: char) {
    '0' <= c <= '9'
  }

  ghost predicate AllDigits(s: string) {
    forall i :: 0 <= i < |s| ==> IsDigit(s[i])
  }

  function DigitChar(d: nat): char
    requires d < 10
  {
    (d + 48) as char
  }

  function DigitValue(c: char): nat
    requires IsDigit(c)
  {
    c as int - 48
  }

  /** The number a digit string denotes, in base ten. */
  ghost function Denoted(s: string): nat
    requires AllDigits(s)
  {
    if s == "" then 0 else Denoted(s[..|s|-1]) * 10 + DigitValue(s[|s|-1])
  }

  /** The decimal text of a number. */
  function Decimal(n: nat): (s: string)
    ensures s != "" && AllDigits(s)
  {
    if n < 10 then [DigitChar(n)] else Decimal(n / 10) + [DigitChar(n % 10)]
  }

  /** The decimal text of a signed number. */
  function IntText(i: int): string {
    if i < 0 then "-" + Decimal(-i) else Decimal(i)
  }

  lemma {:induction false} DecimalDenotes(n: nat)
    ensures Denoted(Decimal(n)) == n
  {
    if n >= 10 {
      DecimalDenotes(n / 10);
      assert Decimal(n)[..|Decimal(n)|-1] == Decimal(n / 10);
    }
  }

  lemma {:induction false} LeadingDigit(s: string)
    requires s != "" && AllDigits(s) && s[0] != '0'
    ensures Denoted(s) > 0
  {
    if |s| > 1 {
      LeadingDigit(s[..|s|-1]);
    }
  }

  /** Decimal text is canonical: it is the only text without a spare leading zero that denotes `n`. */
  lemma {:induction false} DecimalIsCanonical(s: string, n: nat)
    requires s != "" && AllDigits(s) && Denoted(s) == n
    requires s[0] != '0' || |s| == 1
    ensures s == Decimal(n)
  {
    var t := s[..|s|-1];
    if t == "" {
      assert Denoted(t) == 0;
    } else {
      var m := Denoted(t);
      assert n == m * 10 + DigitValue(s[|s|-1]);
      assert m > 0 by { LeadingDigit(t); }
      DecimalIsCanonical(t, m);
      assert n / 10 == m && n % 10 == DigitValue(s[|s|-1]);
      assert s == t + [s[|s|-1]];
    }
  }

  lemma {:induction false} DenotedGrows(s: string, k: nat)
    requires AllDigits(s) && k <= |s|
    ensures Denoted(s) >= Denoted(s[..k])
    ensures k < |s| ==> Denoted(s) >= Denoted(s[..k]) * 10
  {
    if k < |s| {
      var t := s[..|s|-1];
      DenotedGrows(t, k);
      assert t[..k] == s[..k];
    } else {
      assert s[..k] == s;
    }
  }

  ghost function Pow10(k: nat): nat {
    if k == 0 then 1 else 10 * Pow10(k - 1)
  }

  lemma {:induction false} DecimalLength(n: nat, k: nat)
    requires k >= 1 && n < Pow10(k)
    ensures |Decimal(n)| <= k
  {
    if n >= 10 {
      DecimalLength(n / 10, k - 1);
    }
  }

  lemma {:induction false} Pow10Adds(a: nat, b: nat)
    ensures Pow10(a + b) == Pow10(a) * Pow10(b)
  {
    if a > 0 {
      Pow10Adds(a - 1, b);
      assert Pow10(a + b) == 10 * (Pow10(a - 1) * Pow10(b));
    }
  }

  /** Twenty digits suffice for 64 bits, so the 25-byte buffer always has room. */
  lemma DecimalFits(n: nat)
    requires n <= MAX_LARGEST_UINT
    ensures |Decimal(n)| <= 20
  {
    assert Pow10(10) == 1_0000_000_000;
    Pow10Adds(10, 10);
    assert Pow10(20) == 1_0000_000_000 * 1_0000_000_000;
    DecimalLength(n, 20);
  }

  /** `uintToString`: digits are produced last to first, from `current` downwards, above a final NUL. */
  method UIntToString(value: UInt64, buffer: array<char>, current: nat) returns (start: nat)
    requires BUFFER_SIZE <= current <= buffer.Length
    modifies buffer
    ensures current - 21 <= start < current
    ensures buffer[start..current] == Decimal(value) + ['\0']
    ensures buffer[..start] == old(buffer[..start]) && buffer[current..] == old(buffer[current..])
  {
    DecimalFits(value);
    start := current - 1;
    buffer[start] := '\0';
    var v := value;
    while true
      invariant current - 1 - |Decimal(value)| + |Decimal(v)| == start <= current - 1
      invariant Decimal(v) + buffer[start..current] == Decimal(value) + ['\0']
      invariant buffer[..start] == old(buffer[..start]) && buffer[current..] == old(buffer[current..])
      decreases v
    {
      ghost var tail := buffer[start..current];
      start := start - 1;
      buffer[start] := DigitChar(v % 10);
      assert buffer[start..current] == [DigitChar(v % 10)] + tail;
      if v >= 10 {
        assert Decimal(v) == Decimal(v / 10) + [DigitChar(v % 10)];
      }
      v := v / 10;
      if v == 0 {
        break;
      }
    }
  }

  /** Prints into a fresh `UIntToStringBuffer`. */
  method PrintUInt(value: UInt64) returns (buffer: array<char>, current: nat)
    ensures fresh(buffer) && buffer.Length == BUFFER_SIZE
    ensures 4 <= current < BUFFER_SIZE
    ensures buffer[current..BUFFER_SIZE-1] == Decimal(value) && buffer[BUFFER_SIZE-1] == '\0'
  {
    buffer := new char[BUFFER_SIZE];
    current := UIntToString(value, buffer, BUFFER_SIZE);
    assert buffer[current..BUFFER_SIZE-1] == buffer[current..BUFFER_SIZE][..|Decimal(value)|];
    assert buffer[BUFFER_SIZE-1] == buffer[current..BUFFER_SIZE][|Decimal(value)|];
  }

  /** `valueToString(LargestInt)`. */
  method ValueToString(value: int) returns (text: string)
    requires MIN_LARGEST_INT <= value <= MAX_LARGEST_INT
    ensures text == IntText(value)
  {
    if value < 0 {
      var magnitude := if value == MIN_LARGEST_INT then MAX_LARGEST_INT + 1 else -value;
      var buffer, current := PrintUInt(magnitude);
      current := current - 1;
      buffer[current] := '-';
      text := buffer[current..BUFFER_SIZE-1];
    } else {
      var buffer, current := PrintUInt(value);
      text := buffer[current..BUFFER_SIZE-1];
    }
  }

  /** `valueToString(LargestUInt)`. */
  method UIntValueToString(value: UInt64) returns (text: string)
    ensures text == Decimal(value)
  {
    var buffer, current := PrintUInt(value);
    text := buffer[current..BUFFER_SIZE-1];
  }

  /** The largest magnitude a token of this sign can hold as an integer. */
  function MagnitudeLimit(negative: bool): UInt64 {
    if negative then MAX_LARGEST_INT + 1 else MAX_LARGEST_UINT
  }

  /** The integer value of magnitude `m`: small non-negative numbers become `intValue`. */
  function Typed(negative: bool, m: int): Value
    requires m >= 0
  {
    if negative then Int(-m)
    else if m <= MAX_INT then Int(m)
    else UInt(m)
  }

  /** What a number token denotes as an integer; None where the token falls back to a double. */
  ghost function IntegerOf(token: string): Option<Value>
    requires token != ""
  {
    var negative := token[0] == '-';
    var digits := if negative then token[1..] else token;
    if AllDigits(digits) && Denoted(digits) <= MagnitudeLimit(negative)
    then Some(Typed(negative, Denoted(digits)))
    else None
  }

  /**
   The integer part of `decodeNumber`.  The accumulator has type UInt64, so the verifier
   checks at each assignment that the divide-by-ten guard leaves no room for overflow.
   */
  method DecodeInteger(token: string) returns (decoded: Option<Value>)
    requires token != ""
    ensures decoded == IntegerOf(token)
  {
    var negative := token[0] == '-';
    var first := if negative then 1 else 0;
    var current := first;
    var maxIntegerValue := MagnitudeLimit(negative);
    var threshold: UInt64 := maxIntegerValue / 10;
    var value: UInt64 := 0;
    ghost var digits := token[first..];
    while current < |token|
      invariant first <= current <= |token|
      invariant AllDigits(digits[..current-first]) && value == Denoted(digits[..current-first])
      invariant value <= maxIntegerValue
    {
      var c := token[current];
      ghost var k := current - first;
      assert digits[k] == c;
      current := current + 1;
      if !IsDigit(c) {
        return None;
      }
      assert digits[..k+1][..k] == digits[..k];
      if value >= threshold {
        if value > threshold || current != |token| || DigitValue(c) > maxIntegerValue % 10 {
          if AllDigits(digits) {
            DenotedGrows(digits, k);
            DenotedGrows(digits, k + 1);
          }
          return None;
        }
      }
      value := value * 10 + DigitValue(c);
    }
    assert digits[..current-first] == digits;
    if negative && value == maxIntegerValue {
      return Some(Int(MIN_LARGEST_INT));
    } else if negative {
      return Some(Int(-(value as int)));
    } else if value <= MAX_INT {
      return Some(Int(value));
    } else {
      return Some(UInt(value));
    }
  }

  /** Printing then decoding gives the number back, typed by its magnitude. */
  lemma IntegerRoundTrip(i: int)
    requires MIN_LARGEST_INT <= i <= MAX_LARGEST_UINT
    ensures IntegerOf(IntText(i)) == Some(Typed(i < 0, if i < 0 then -i else i))
  {
    var m := if i < 0 then -i else i;
    DecimalDenotes(m);
    assert i < 0 ==> IntText(i)[1..] == Decimal(m);
  }
}
