/**
 Writing a tree and reading it back.
 */
module JsonRoundTrip {
  import opened JsonValue
  import Strings = JsonString
  import opened JsonToken
  import opened JsonGrammar
  import opened JsonCanonical
  import opened JsonLexeme
  import opened JsonSpelling
  import opened JsonFastWriter
  import opened JsonInjective

  /** Every text that lexes into the tokens of a canonical tree parses to it exactly within the stack limit. */
  lemma ParseLexed(scan: ScanDouble, fmt: DoubleText, doc: string, root: Value, v: Value)
    requires Canonical(v) && DoubleFree(v)
    requires Lex(doc, 0) == Tokens(fmt, v, Nil)
    ensures var r := Parse(scan, doc, root);
            if Height(v) <= STACK_LIMIT then r.Ok? && r.val == v else r == Threw(StackLimitExceeded)
  {
    ReadsTokens(scan, fmt, doc, 0, 1, root, v, Nil);
  }

  lemma ProperText(l: Lexeme)
    requires Proper(l)
    ensures l.text != ""
  {
  }

  lemma DelimitedTail(text: string, ending: string)
    requires AllSpace(ending)
    ensures Delimited(text) ==> Delimited(text + ending)
  {
  }

  lemma {:induction false} AllSpaceSkipped(text: string, pos: nat)
    requires pos <= |text| && forall i :: pos <= i < |text| ==> IsSpace(text[i])
    ensures SkipSpaces(text, pos) == |text|
    decreases |text| - pos
  {
    if pos < |text| {
      AllSpaceSkipped(text, pos + 1);
    }
  }

  lemma {:induction false} SkipSpacesAppend(text: string, ending: string, pos: nat)
    requires pos <= |text| && AllSpace(ending)
    ensures var k := SkipSpaces(text, pos);
            SkipSpaces(text + ending, pos) == if k < |text| then k else |text| + |ending|
    decreases |text| - pos
  {
    if pos < |text| {
      SkipSpacesAppend(text, ending, pos + 1);
    } else {
      AllSpaceSkipped(text + ending, pos);
    }
  }

  /** White space may be added at the end. */
  lemma {:induction false} SpellsTail(text: string, ending: string, l: Lexemes)
    requires Spells(text, l) && AllSpace(ending)
    ensures Spells(text + ending, l)
    decreases l
  {
    hide Proper, Delimited, SkipSpaces;
    var k := SkipSpaces(text, 0);
    SkipSpacesAppend(text, ending, 0);
    if l.Cons? {
      var n := |l.head.text|;
      ProperText(l.head);
      DelimitedTail(text[k+n..], ending);
      assert (text + ending)[k..k+n] == text[k..k+n];
      assert (text + ending)[k+n..] == text[k+n..] + ending;
      SpellsTail(text[k+n..], ending, l.tail);
    } else {
      assert SkipSpaces(text + ending, 0) == |text + ending|;
    }
  }

  lemma CompactLexes(fmt: DoubleText, v: Value, ending: string)
    requires Valid(v) && DoubleFree(v) && AllSpace(ending)
    ensures Lex(Compact(fmt, v) + ending, 0) == Tokens(fmt, Normal(v), Nil)
  {
    var l := Tokens(fmt, Normal(v), Nil);
    NormalDoubleFree(v);
    TokensOrderly(fmt, Normal(v), Nil);
    RenderSpells(Bare(l));
    StripBare(l);
    var text := Compact(fmt, v);
    assert (text + ending)[0..] == text + ending;
    SpellsTail(text, ending, l);
    LexSpelled(text + ending, 0, l);
  }

  /**
   The round trip of the compact writer: for every double-free tree, with or without the
   final line feed, parsing the text gives the normal form of the tree exactly when that is
   nested within the stack limit, and otherwise stops with the depth exception.
   */
  lemma CompactRoundTrip(scan: ScanDouble, fmt: DoubleText, v: Value, ending: string, root: Value)
    requires Valid(v) && DoubleFree(v) && AllSpace(ending)
    ensures var r := Parse(scan, Compact(fmt, v) + ending, root);
            if Height(Normal(v)) <= STACK_LIMIT then r.Ok? && r.val == Normal(v) else r == Threw(StackLimitExceeded)
  {
    NormalIsCanonical(v);
    NormalDoubleFree(v);
    CompactLexes(fmt, v, ending);
    ParseLexed(scan, fmt, Compact(fmt, v) + ending, root, Normal(v));
  }

  /** Writing the parsed tree again gives the same text. */
  lemma CompactIsStable(fmt: DoubleText, v: Value)
    requires Valid(v)
    ensures Normal(Normal(v)) == Normal(v) && Compact(fmt, Normal(v)) == Compact(fmt, v)
  {
    NormalIsCanonical(v);
    CanonicalIsNormal(Normal(v));
  }

  /** Only the normal form survives: two trees have the same text just when they have the same normal form. */
  lemma CompactInjective(fmt: DoubleText, v: Value, w: Value)
    requires Valid(v) && DoubleFree(v) && Valid(w) && DoubleFree(w)
    ensures Compact(fmt, v) == Compact(fmt, w) <==> Normal(v) == Normal(w)
  {
    if Compact(fmt, v) == Compact(fmt, w) {
      CompactLexes(fmt, v, "");
      CompactLexes(fmt, w, "");
      NormalIsCanonical(v);
      NormalIsCanonical(w);
      NormalDoubleFree(v);
      NormalDoubleFree(w);
      TokensInjective(fmt, Normal(v), Normal(w), Nil, Nil);
    }
  }

  /**
   Quoting: for every string and every suffix, the lexer stops exactly behind the quoted
   text and its decoding restores the string.
   */
  lemma QuotedToken(s: string, suffix: string)
    ensures var doc := Strings.Quote(s) + suffix;
            var t := ReadToken(doc, 0);
            && t == JsonToken.Token(StringToken, 0, |Strings.Quote(s)|)
            && Strings.DecodeQuoted(Text(doc, t)) == Strings.Success(s)
  {
    var doc := Strings.Quote(s) + suffix;
    assert doc[0..|Strings.Quote(s)|] == Strings.Quote(s);
    ScanString(doc, 0, s);
    Strings.QuoteRoundTrip(s);
  }
}
