/**
 The texts of numbers, without the functions of the lexer, and the proof that it takes exactly
 the longest of them wherever one stands.
 */
module JsonNumeral {
  import opened JsonValue
  import opened JsonNumber
  import opened JsonToken
  import opened JsonGrammar
  import opened Options

  ghost predicate SignedDigits(s: string) {
    s == "" || ((s[0] == '+' || s[0] == '-' || IsDigit(s[0])) && AllDigits(s[1..]))
  }

  /** The parts of the text of a number, each empty where it is missing. */
  datatype Numeral = Numeral(minus: string, whole: string, fraction: string, exponent: string) {
    /** An optional minus, digits, a point with digits, and the letter e with a sign and digits. */
    ghost predicate Valid() {
      && (minus == "" || minus == "-") && AllDigits(whole) && (minus == "" ==> whole != "")
      && (fraction == "" || (fraction[0] == '.' && AllDigits(fraction[1..])))
      && (exponent == "" || ((exponent[0] == 'e' || exponent[0] == 'E') && SignedDigits(exponent[1..])))
    }

    function Text(): string {
      minus + whole + fraction + exponent
    }
  }

  ghost predicate IsNumeral(s: string) {
    exists n: Numeral :: n.Valid() && n.Text() == s
  }

  /** `text` stands in the document from `pos` on. */
  ghost predicate Stands(doc: string, pos: nat, text: string) {
    pos + |text| <= |doc| && doc[pos..pos+|text|] == text
  }

  lemma StandsApart(doc: string, pos: nat, a: string, b: string)
    requires Stands(doc, pos, a + b)
    ensures Stands(doc, pos, a) && Stands(doc, pos + |a|, b)
  {
    var all := doc[pos..pos+|a+b|];
    assert all[..|a|] == a && all[|a|..] == b;
    assert doc[pos..pos+|a|] == all[..|a|] && doc[pos+|a|..pos+|a|+|b|] == all[|a|..];
  }

  lemma StandsFirst(doc: string, pos: nat, s: string)
    requires Stands(doc, pos, s) && s != ""
    ensures pos < |doc| && doc[pos] == s[0] && Stands(doc, pos + 1, s[1..])
  {
    assert doc[pos] == doc[pos..pos+|s|][0];
    assert doc[pos+1..pos+|s|] == doc[pos..pos+|s|][1..];
  }

  /** The lexer passes all digits, and stops where there are none. */
  lemma {:induction false} PassesDigits(doc: string, pos: nat, s: string)
    requires Stands(doc, pos, s) && AllDigits(s)
    ensures DigitsEnd(doc, pos) >= pos + |s|
    ensures pos + |s| < |doc| && !IsDigit(doc[pos+|s|]) ==> DigitsEnd(doc, pos) == pos + |s|
    decreases |s|
  {
    if s != "" {
      StandsFirst(doc, pos, s);
      PassesDigits(doc, pos + 1, s[1..]);
    }
  }

  lemma {:induction false} TakesDigits(doc: string, pos: nat)
    requires pos <= |doc|
    ensures AllDigits(doc[pos..DigitsEnd(doc, pos)])
    decreases |doc| - pos
  {
    if pos < |doc| && IsDigit(doc[pos]) {
      TakesDigits(doc, pos + 1);
      assert doc[pos..DigitsEnd(doc, pos)] == [doc[pos]] + doc[pos+1..DigitsEnd(doc, pos)];
    }
  }

  lemma PassesExponent(doc: string, pos: nat, s: string)
    requires s != "" && Stands(doc, pos, s) && (s[0] == 'e' || s[0] == 'E') && SignedDigits(s[1..])
    ensures ExponentEnd(doc, pos) >= pos + |s|
  {
    hide Stands, DigitsEnd;
    StandsFirst(doc, pos, s);
    var t := s[1..];
    if t != "" {
      StandsFirst(doc, pos + 1, t);
      if IsDigit(t[0]) {
        PassesDigits(doc, pos + 1, t);
      } else {
        PassesDigits(doc, pos + 2, t[1..]);
      }
    } else {
      assert Stands(doc, pos + 1, "");
    }
  }

  lemma PassesFraction(doc: string, pos: nat, n: Numeral)
    requires n.Valid() && Stands(doc, pos, n.fraction + n.exponent)
    ensures ExponentEnd(doc, FractionEnd(doc, pos)) >= pos + |n.fraction| + |n.exponent|
  {
    hide AllDigits, SignedDigits, DigitsEnd, Stands;
    StandsApart(doc, pos, n.fraction, n.exponent);
    var end := pos + |n.fraction|;
    if n.exponent != "" {
      StandsFirst(doc, end, n.exponent);
      PassesExponent(doc, end, n.exponent);
    }
    hide ExponentEnd;
    if n.fraction != "" {
      StandsFirst(doc, pos, n.fraction);
      PassesDigits(doc, pos + 1, n.fraction[1..]);
    }
  }

  /** The first character and the digits behind it. */
  lemma FirstAndDigits(n: Numeral) returns (first: string, digits: string)
    requires n.Valid()
    ensures |first| == 1 && AllDigits(digits) && n.Text() == first + (digits + (n.fraction + n.exponent))
  {
    first, digits := n.minus, n.whole;
    if first == "" {
      first, digits := [n.whole[0]], n.whole[1..];
    }
  }

  /** Behind the digits comes no other one, unless they are the end of the text. */
  lemma NoDigit(doc: string, pos: nat, n: Numeral)
    requires n.Valid() && Stands(doc, pos, n.fraction + n.exponent)
    ensures n.fraction + n.exponent != "" ==> pos < |doc| && !IsDigit(doc[pos])
  {
    var rest := n.fraction + n.exponent;
    if rest != "" {
      StandsFirst(doc, pos, rest);
    }
  }

  /** The lexer takes no less than a number's text. */
  lemma PassesNumeral(doc: string, start: nat, n: Numeral)
    requires n.Valid() && Stands(doc, start, n.Text())
    ensures NumberEnd(doc, start + 1) >= start + |n.Text()|
  {
    hide AllDigits, DigitsEnd, FractionEnd, ExponentEnd;
    var first, digits := FirstAndDigits(n);
    var rest := n.fraction + n.exponent;
    StandsApart(doc, start, first, digits + rest);
    StandsApart(doc, start + 1, digits, rest);
    PassesDigits(doc, start + 1, digits);
    var end := start + 1 + |digits|;
    PassesFraction(doc, end, n);
    NoDigit(doc, end, n);
  }

  lemma TakesExponent(doc: string, pos: nat)
    requires pos <= |doc|
    ensures var s := doc[pos..ExponentEnd(doc, pos)];
            s == "" || ((s[0] == 'e' || s[0] == 'E') && SignedDigits(s[1..]))
  {
    var end := ExponentEnd(doc, pos);
    if end > pos {
      var s := doc[pos..end];
      if pos + 1 < |doc| && (doc[pos+1] == '+' || doc[pos+1] == '-') {
        TakesDigits(doc, pos + 2);
        assert s[1..][1..] == doc[pos+2..end];
      } else {
        TakesDigits(doc, pos + 1);
        assert s[1..] == doc[pos+1..end];
      }
    }
  }

  lemma TakesFraction(doc: string, pos: nat)
    requires pos <= |doc|
    ensures var s := doc[pos..FractionEnd(doc, pos)];
            s == "" || (s[0] == '.' && AllDigits(s[1..]))
  {
    var end := FractionEnd(doc, pos);
    if end > pos {
      TakesDigits(doc, pos + 1);
      assert doc[pos..end][1..] == doc[pos+1..end];
    }
  }

  lemma PartsAreNumeral(first: char, digits: string, fraction: string, exponent: string)
    requires (first == '-' || IsDigit(first)) && AllDigits(digits)
    requires fraction == "" || (fraction[0] == '.' && AllDigits(fraction[1..]))
    requires exponent == "" || ((exponent[0] == 'e' || exponent[0] == 'E') && SignedDigits(exponent[1..]))
    ensures IsNumeral([first] + digits + fraction + exponent)
  {
    var n := if first == '-' then Numeral("-", digits, fraction, exponent) else Numeral("", [first] + digits, fraction, exponent);
    assert n.Valid();
    assert n.Text() == [first] + digits + fraction + exponent;
  }

  lemma Pieces(doc: string, start: nat, p: nat, q: nat, r: nat)
    requires start < p <= q <= r <= |doc|
    ensures doc[start..r] == [doc[start]] + doc[start+1..p] + doc[p..q] + doc[q..r]
  {
  }

  /** And what it takes is a number's text. */
  lemma TakesNumeral(doc: string, start: nat)
    requires start < |doc| && (doc[start] == '-' || IsDigit(doc[start]))
    ensures IsNumeral(doc[start..NumberEnd(doc, start + 1)])
  {
    var p := DigitsEnd(doc, start + 1);
    var q := FractionEnd(doc, p);
    var r := ExponentEnd(doc, q);
    TakesDigits(doc, start + 1);
    TakesFraction(doc, p);
    TakesExponent(doc, q);
    hide DigitsEnd, FractionEnd, ExponentEnd, SignedDigits, AllDigits, IsNumeral;
    Pieces(doc, start, p, q, r);
    PartsAreNumeral(doc[start], doc[start+1..p], doc[p..q], doc[q..r]);
  }

  /** Where a number begins: at a digit, or at a minus that is not that of minus infinity. */
  predicate Begins(doc: string, start: nat) {
    start < |doc| && (IsDigit(doc[start]) || (doc[start] == '-' && !(start + 1 < |doc| && doc[start+1] == 'I')))
  }

  /** The lexer takes the longest text of a number that stands there. */
  lemma ScanLongest(doc: string, start: nat)
    requires Begins(doc, start)
    ensures var t := Scan(doc, start);
            && t.kind == NumberToken && IsNumeral(doc[start..t.end])
            && forall end :: t.end < end <= |doc| ==> !IsNumeral(doc[start..end])
  {
    TakesNumeral(doc, start);
    var t := Scan(doc, start);
    forall end | t.end < end <= |doc| ensures !IsNumeral(doc[start..end]) {
      if IsNumeral(doc[start..end]) {
        var n: Numeral :| n.Valid() && n.Text() == doc[start..end];
        PassesNumeral(doc, start, n);
      }
    }
  }

  /** Characters of which at least one continues every longer text of a number. */
  predicate Continues(c: char) {
    IsDigit(c) || c == '.' || c == 'e' || c == 'E' || c == '+' || c == '-'
  }

  lemma NumeralChars(n: Numeral, k: nat)
    requires n.Valid() && k < |n.Text()|
    ensures Continues(n.Text()[k])
    ensures n.Text()[0] == '-' || IsDigit(n.Text()[0])
  {
    var head := n.minus + n.whole;
    if k < |head| {
      assert n.Text()[k] == head[k];
    } else if k < |head| + |n.fraction| {
      assert n.Text()[k] == n.fraction[k-|head|];
    } else {
      var j := k - |head| - |n.fraction|;
      assert n.Text()[k] == n.exponent[j];
      assert j > 1 ==> n.exponent[j] == n.exponent[1..][1..][j-2];
    }
  }

  /** What ends a number's text: any character that cannot continue it. */
  predicate Ends(s: string, rest: string) {
    rest == "" || (!Continues(rest[0]) && (s == "-" ==> rest[0] != 'I'))
  }

  lemma NumeralBegins(doc: string, start: nat, n: Numeral)
    requires n.Valid() && Stands(doc, start, n.Text()) && Ends(n.Text(), doc[start+|n.Text()|..])
    ensures n.Text() != "" && Begins(doc, start)
  {
    var s := n.Text();
    NumeralChars(n, 0);
    StandsFirst(doc, start, s);
    if |s| > 1 {
      NumeralChars(n, 1);
      StandsFirst(doc, start + 1, s[1..]);
    }
  }

  /** No longer text of a number stands there. */
  lemma EndsThere(doc: string, start: nat, s: string, stop: nat)
    requires s != "" && Stands(doc, start, s) && Ends(s, doc[start+|s|..])
    requires start + |s| < stop <= |doc|
    ensures !IsNumeral(doc[start..stop])
  {
    var t := doc[start..stop];
    assert t[|s|] == doc[start+|s|..][0];
    if IsNumeral(t) {
      var m: Numeral :| m.Valid() && m.Text() == t;
      NumeralChars(m, |s|);
    }
  }

  /** In front of such an end exactly the text is taken. */
  lemma ScanNumeral(doc: string, start: nat, n: Numeral)
    requires n.Valid() && Stands(doc, start, n.Text()) && Ends(n.Text(), doc[start+|n.Text()|..])
    ensures n.Text() != "" && Scan(doc, start) == JsonToken.Token(NumberToken, start, start + |n.Text()|)
  {
    NumeralBegins(doc, start, n);
    PassesNumeral(doc, start, n);
    TakesNumeral(doc, start);
    var stop := NumberEnd(doc, start + 1);
    hide IsNumeral, Ends, Stands, NumberEnd;
    if stop > start + |n.Text()| {
      EndsThere(doc, start, n.Text(), stop);
    }
  }

  /** Which texts denote integers. */
  lemma IntegerNumeral(n: Numeral)
    requires n.Valid()
    ensures n.Text() != ""
    ensures var negative := n.minus != "";
            IntegerOf(n.Text()) ==
              if n.fraction == "" && n.exponent == "" && Denoted(n.whole) <= MagnitudeLimit(negative)
              then Some(Typed(negative, Denoted(n.whole)))
              else None
  {
    var s := n.Text();
    NumeralChars(n, 0);
    var digits := if s[0] == '-' then s[1..] else s;
    assert n.minus == "-" <==> s[0] == '-';
    assert digits == n.whole + n.fraction + n.exponent;
    if n.fraction != "" {
      assert digits[|n.whole|] == '.';
    } else if n.exponent != "" {
      assert digits[|n.whole|] == n.exponent[0];
    } else {
      assert digits == n.whole;
    }
  }

  lemma NextNumeral(doc: string, pos: nat, n: Numeral)
    requires pos <= |doc| && n.Valid()
    requires var k := SkipSpaces(doc, pos); Stands(doc, k, n.Text()) && Ends(n.Text(), doc[k+|n.Text()|..])
    ensures n.Text() != ""
    ensures var k, s := SkipSpaces(doc, pos), n.Text();
            var t := NextToken(doc, pos);
            t == JsonToken.Token(NumberToken, k, k + |s|) && JsonToken.Text(doc, t) == s
  {
    var k, s := SkipSpaces(doc, pos), n.Text();
    ScanNumeral(doc, k, n);
    hide Scan, Ends;
  }

  lemma ReadsNumber(scan: ScanDouble, doc: string, pos: nat, depth: nat, current: Value)
    requires pos <= |doc| && depth <= STACK_LIMIT && NextToken(doc, pos).kind == NumberToken
    ensures var t := NextToken(doc, pos);
            ReadValue(scan, doc, pos, depth, current) ==
              match DecodeNumber(scan, JsonToken.Text(doc, t))
              case Some(v) => Ok(t.end, v)
              case None => Fail(t.end, current, ErrorInfo(NotANumber, t))
  {
  }

  /**
   A number's text with white space before it and such an end behind it is read as the integer it denotes, if
   it is one within the limits, and otherwise as the double that is scanned from it.
   */
  lemma ReadsNumeral(scan: ScanDouble, doc: string, pos: nat, depth: nat, current: Value, n: Numeral)
    requires pos <= |doc| && depth <= STACK_LIMIT && n.Valid()
    requires var k := SkipSpaces(doc, pos); Stands(doc, k, n.Text()) && Ends(n.Text(), doc[k+|n.Text()|..])
    ensures var k, s := SkipSpaces(doc, pos), n.Text();
            var negative := n.minus != "";
            ReadValue(scan, doc, pos, depth, current) ==
              if n.fraction == "" && n.exponent == "" && Denoted(n.whole) <= MagnitudeLimit(negative)
              then Ok(k + |s|, Typed(negative, Denoted(n.whole)))
              else if scan(s).Some? then Ok(k + |s|, Real(scan(s).value))
              else Fail(k + |s|, current, ErrorInfo(NotANumber, JsonToken.Token(NumberToken, k, k + |s|)))
  {
    NextNumeral(doc, pos, n);
    IntegerNumeral(n);
    ReadsNumber(scan, doc, pos, depth, current);
    hide ReadValue, NextToken, SkipSpaces, IntegerOf, Denoted, Typed, Stands, Ends;
  }
}
