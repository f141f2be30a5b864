/**
 Some of what the reader accepts beyond the grammar of JSON, with documents that show it.
 */
module JsonQuirks {
  import opened JsonValue
  import opened JsonNumber
  import Strings = JsonString
  import opened JsonToken
  import opened JsonGrammar
  import opened Options

  /** What is accepted as a value begins with one of seven kinds of tokens, above the stack limit. */
  lemma ValueAccepted(scan: ScanDouble, doc: string, pos: nat, depth: nat, current: Value)
    requires pos <= |doc| && ReadValue(scan, doc, pos, depth, current).Ok?
    ensures depth <= STACK_LIMIT
    ensures NextToken(doc, pos).kind in {ObjectBegin, ArrayBegin, NumberToken, StringToken, TrueToken, FalseToken, NullToken}
  {
  }

  /** What is accepted as a member is a string that decodes, a colon without a comment before it, and a value. */
  lemma MemberAccepted(scan: ScanDouble, doc: string, pos: nat, depth: nat, es: seq<Entry>, name: string)
    requires pos <= |doc| && NextToken(doc, pos).kind != ObjectEnd && ReadMembers(scan, doc, pos, depth, es, name).Ok?
    ensures var t := NextToken(doc, pos);
            t.kind == StringToken &&
            var key, colon := Strings.DecodeQuoted(Text(doc, t)), ReadToken(doc, t.end);
            key.Success? && colon.kind == MemberSeparator && ReadValue(scan, doc, colon.end, depth + 1, Get(es, Name(key.value))).Ok?
  {
    hide ReadValue, ReadToken, Strings.DecodeQuoted;
    var t := NextToken(doc, pos);
    var key, colon := Strings.DecodeQuoted(Text(doc, t)), ReadToken(doc, t.end);
    if key.Success? && colon.kind == MemberSeparator {
      assert ReadMember(scan, doc, t.end, depth, es, key.value) == ReadNamed(scan, doc, colon.end, depth, es, key.value);
    }
  }

  /** An array goes on after an element exactly with a comma, whatever comments stand before it. */
  lemma ElementSeparator(doc: string, pos: nat, es: seq<Entry>)
    requires pos <= |doc|
    ensures AfterElement(doc, pos, es).More? <==> NextToken(doc, pos).kind == ArraySeparator
  {
  }

  /**
   An object goes on after a member with a comma, or with a comment and any token at all
   behind it that does not close the object, even the end of the stream.
   */
  lemma MemberSeparatorOrComment(doc: string, pos: nat, es: seq<Entry>)
    requires pos <= |doc|
    ensures var t := ReadToken(doc, pos);
            AfterMember(doc, pos, es).More? <==>
              t.kind == ArraySeparator || (t.kind == Comment && NextToken(doc, pos).kind != ObjectEnd)
  {
  }

  /** A minus sign without digits is the integer zero. */
  lemma MinusAlone(scan: ScanDouble, root: Value)
    ensures Parse(scan, "-", root) == Ok(1, Int(0))
  {
    var doc := "-";
    assert ReadToken(doc, 0) == JsonToken.Token(NumberToken, 0, 1);
    assert Text(doc, JsonToken.Token(NumberToken, 0, 1)) == "-";
    assert "-"[1..] == "";
    assert DecodeNumber(scan, "-") == Some(Int(0));
  }

  lemma ZerosDenote()
    ensures IntegerOf("007") == Some(Int(7))
  {
    assert "007"[..2] == "00" && "00"[..1] == "0" && "0"[..0] == "";
    assert Denoted("00") == 0;
  }

  /** Leading zeros are skipped, and what stands behind the root is not read. */
  lemma ZerosAndRest(scan: ScanDouble, root: Value)
    ensures Parse(scan, "007 x", root) == Ok(3, Int(7))
  {
    var doc := "007 x";
    assert ReadToken(doc, 0) == JsonToken.Token(NumberToken, 0, 3);
    assert Text(doc, JsonToken.Token(NumberToken, 0, 3)) == "007";
    ZerosDenote();
    hide ReadToken, IntegerOf, ReadMembers, ReadElements;
  }

  /** An apostrophe opens a comment as a slash does. */
  lemma ApostropheComment(scan: ScanDouble, root: Value)
    ensures Parse(scan, "'**/0", root) == Ok(5, Int(0))
  {
    var doc := "'**/0";
    assert ReadToken(doc, 0) == JsonToken.Token(Comment, 0, 4);
    assert ReadToken(doc, 4) == JsonToken.Token(NumberToken, 4, 5);
    assert Text(doc, JsonToken.Token(NumberToken, 4, 5)) == "0" == IntText(0);
    IntegerRoundTrip(0);
  }

  /** A closing brace where a member should begin is accepted exactly if the last member's name is empty, or there is no last member. */
  lemma ClosingBraceAfterComma(scan: ScanDouble, doc: string, pos: nat, depth: nat, es: seq<Entry>, name: string)
    requires pos <= |doc| && NextToken(doc, pos).kind == ObjectEnd
    ensures ReadMembers(scan, doc, pos, depth, es, name).Ok? <==> name == ""
  {
  }

  const NAMELESS := "{\"\":0,}"

  lemma NamelessTokens()
    ensures ReadToken(NAMELESS, 0) == JsonToken.Token(ObjectBegin, 0, 1)
    ensures ReadToken(NAMELESS, 1) == JsonToken.Token(StringToken, 1, 3) && Text(NAMELESS, ReadToken(NAMELESS, 1)) == "\"\""
    ensures ReadToken(NAMELESS, 3) == JsonToken.Token(MemberSeparator, 3, 4)
    ensures ReadToken(NAMELESS, 4) == JsonToken.Token(NumberToken, 4, 5) && Text(NAMELESS, ReadToken(NAMELESS, 4)) == "0"
    ensures ReadToken(NAMELESS, 5) == JsonToken.Token(ArraySeparator, 5, 6)
    ensures ReadToken(NAMELESS, 6) == JsonToken.Token(ObjectEnd, 6, 7)
  {
  }

  lemma NamelessMember(scan: ScanDouble)
    ensures ReadMember(scan, NAMELESS, 3, 1, [], "") == More(6, [Entry(Name(""), Int(0))])
  {
    NamelessTokens();
    IntegerRoundTrip(0);
    PutLast([], Name(""), Int(0));
    assert Text(NAMELESS, ReadToken(NAMELESS, 4)) == IntText(0);
    hide ReadToken, IntegerOf, IntText, Put, ReadMembers, ReadElements;
    assert ReadValue(scan, NAMELESS, 4, 2, Get([], Name(""))) == Ok(5, Int(0));
    hide ReadValue;
  }

  /** So a comma may stand before the brace after a member whose name is empty. */
  lemma CommaAfterNameless(scan: ScanDouble, root: Value)
    ensures Parse(scan, NAMELESS, root) == Ok(7, Obj([Entry(Name(""), Int(0))]))
  {
    NamelessTokens();
    NamelessMember(scan);
    Strings.QuoteRoundTrip("");
    assert Strings.DecodeQuoted("\"\"") == Strings.Success("");
    hide ReadToken, ReadMember, Strings.DecodeQuoted;
    assert ReadMembers(scan, NAMELESS, 6, 1, [Entry(Name(""), Int(0))], "").Ok?;
  }

  const ODD := "{\"a\":0/**/:\"b\":1}"

  lemma OddFirstTokens()
    ensures ReadToken(ODD, 0) == JsonToken.Token(ObjectBegin, 0, 1)
    ensures ReadToken(ODD, 1) == JsonToken.Token(StringToken, 1, 4) && Text(ODD, ReadToken(ODD, 1)) == "\"a\""
    ensures ReadToken(ODD, 4) == JsonToken.Token(MemberSeparator, 4, 5)
    ensures ReadToken(ODD, 5) == JsonToken.Token(NumberToken, 5, 6) && Text(ODD, ReadToken(ODD, 5)) == "0"
  {
    assert StringEnd(ODD, 3) == (true, 4);
  }

  lemma OddSeparators()
    ensures ReadToken(ODD, 6) == JsonToken.Token(Comment, 6, 10)
    ensures ReadToken(ODD, 10) == JsonToken.Token(MemberSeparator, 10, 11)
  {
    assert BlockCommentEnd(ODD, 8) == 9;
  }

  lemma OddLastTokens()
    ensures ReadToken(ODD, 11) == JsonToken.Token(StringToken, 11, 14) && Text(ODD, ReadToken(ODD, 11)) == "\"b\""
    ensures ReadToken(ODD, 14) == JsonToken.Token(MemberSeparator, 14, 15)
    ensures ReadToken(ODD, 15) == JsonToken.Token(NumberToken, 15, 16) && Text(ODD, ReadToken(ODD, 15)) == "1"
    ensures ReadToken(ODD, 16) == JsonToken.Token(ObjectEnd, 16, 17)
  {
    assert StringEnd(ODD, 13) == (true, 14);
  }

  lemma OddNumbers(scan: ScanDouble, depth: nat, current: Value)
    requires depth <= STACK_LIMIT
    ensures ReadValue(scan, ODD, 5, depth, current) == Ok(6, Int(0))
    ensures ReadValue(scan, ODD, 15, depth, current) == Ok(16, Int(1))
  {
    OddFirstTokens();
    OddSeparators();
    OddLastTokens();
    assert Text(ODD, ReadToken(ODD, 5)) == IntText(0) && Text(ODD, ReadToken(ODD, 15)) == IntText(1);
    IntegerRoundTrip(0);
    IntegerRoundTrip(1);
    hide ReadToken, IntegerOf, ReadMembers, ReadElements;
  }

  lemma OddNames()
    ensures Strings.DecodeQuoted("\"a\"") == Strings.Success("a") && Strings.DecodeQuoted("\"b\"") == Strings.Success("b")
  {
    Strings.QuoteRoundTrip("a");
    Strings.QuoteRoundTrip("b");
  }

  lemma OddMembers(scan: ScanDouble)
    ensures var one := [Entry(Name("a"), Int(0))];
            && ReadMember(scan, ODD, 4, 1, [], "a") == More(11, one)
            && ReadMember(scan, ODD, 14, 1, one, "b") == Stop(Ok(17, Obj(one + [Entry(Name("b"), Int(1))])))
  {
    OddFirstTokens();
    OddSeparators();
    OddLastTokens();
    hide ReadToken, ReadValue;
    var one := [Entry(Name("a"), Int(0))];
    OddNumbers(scan, 2, Get([], Name("a")));
    OddNumbers(scan, 2, Get(one, Name("b")));
    PutLast([], Name("a"), Int(0));
    PutLast(one, Name("b"), Int(1));
    assert AfterMember(ODD, 6, one) == More(11, one);
  }

  /** Behind a comment a colon passes for the comma of an object. */
  lemma ColonForComma(scan: ScanDouble, root: Value)
    ensures Parse(scan, ODD, root) == Ok(17, Obj([Entry(Name("a"), Int(0)), Entry(Name("b"), Int(1))]))
  {
    OddFirstTokens();
    OddSeparators();
    OddLastTokens();
    OddNames();
    OddMembers(scan);
    hide ReadToken, ReadMember, Strings.DecodeQuoted;
    assert [Entry(Name("a"), Int(0))] + [Entry(Name("b"), Int(1))] == [Entry(Name("a"), Int(0)), Entry(Name("b"), Int(1))];
    assert ReadMembers(scan, ODD, 11, 1, [Entry(Name("a"), Int(0))], "a").Ok?;
  }
}
