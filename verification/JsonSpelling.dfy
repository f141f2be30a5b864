/**
 When a text spells a token sequence, and the proof that the lexer then finds exactly it.
 White space may stand between tokens; a number must not run into what follows.
 */
module JsonSpelling {
  import Numbers = JsonNumber
  import Strings = JsonString
  import opened JsonToken
  import opened JsonLexeme

  /** Characters that would extend a number token. */
  predicate NumberChar(c: char) {
    Numbers.IsDigit(c) || c == '.' || c == 'e' || c == 'E'
  }

  predicate Delimited(text: string) {
    text == "" || !NumberChar(text[0])
  }

  ghost predicate AllSpace(s: string) {
    forall i :: 0 <= i < |s| ==> IsSpace(s[i])
  }

  /** The texts a writer puts down for a token of each kind. */
  ghost predicate Proper(l: Lexeme) {
    match l.kind
    case ObjectBegin => l.text == "{"
    case ObjectEnd => l.text == "}"
    case ArrayBegin => l.text == "["
    case ArrayEnd => l.text == "]"
    case ArraySeparator => l.text == ","
    case MemberSeparator => l.text == ":"
    case TrueToken => l.text == "true"
    case FalseToken => l.text == "false"
    case NullToken => l.text == "null"
    case StringToken => exists s :: l.text == Strings.Quote(s)
    case NumberToken => exists i :: l.text == Numbers.IntText(i)
    case _ => false
  }

  ghost predicate Spells(text: string, l: Lexemes)
    decreases l
  {
    var k := SkipSpaces(text, 0);
    match l
    case Nil => k == |text|
    case Cons(h, t) =>
      && Proper(h) && Matches(text, k, h.text)
      && (h.kind == NumberToken ==> Delimited(text[k+|h.text|..]))
      && Spells(text[k+|h.text|..], t)
  }

  ghost predicate StandsAt(doc: string, pos: nat, text: string) {
    pos + |text| <= |doc| && forall k :: pos <= k < pos + |text| ==> doc[k] == text[k-pos]
  }

  lemma MatchesStands(doc: string, pos: nat, text: string)
    requires pos <= |doc| && Matches(doc, pos, text)
    ensures StandsAt(doc, pos, text)
  {
    assert forall k :: pos <= k < pos + |text| ==> doc[k] == doc[pos..pos+|text|][k-pos];
  }

  lemma StandsSplit(doc: string, pos: nat, a: string, b: string)
    requires StandsAt(doc, pos, a + b)
    ensures StandsAt(doc, pos, a) && StandsAt(doc, pos + |a|, b)
  {
  }

  lemma {:induction false} PlainRun(doc: string, pos: nat, n: nat)
    requires pos + n <= |doc| && forall k :: pos <= k < pos + n ==> doc[k] != '\"' && doc[k] != '\\'
    ensures StringEnd(doc, pos) == StringEnd(doc, pos + n)
    decreases n
  {
    if n > 0 {
      PlainRun(doc, pos + 1, n - 1);
    }
  }

  lemma HexDigitsArePlain(n: nat)
    requires n <= 0xFFFF
    ensures forall i :: 0 <= i < 4 ==> Strings.HexText(n)[i] != '\"' && Strings.HexText(n)[i] != '\\'
  {
  }

  lemma ScanEscape(c: char, doc: string, pos: nat)
    requires pos <= |doc| && StandsAt(doc, pos, Strings.Escape(c))
    ensures StringEnd(doc, pos) == StringEnd(doc, pos + |Strings.Escape(c)|)
  {
    var e := Strings.Escape(c);
    assert doc[pos] == e[0];
    if |e| == 6 {
      HexDigitsArePlain(c as int);
      assert e == "\\u" + Strings.HexText(c as int);
      StandsSplit(doc, pos, "\\u", Strings.HexText(c as int));
      PlainRun(doc, pos + 2, 4);
    }
  }

  /** A quoted string ends at its closing quote, whatever follows. */
  lemma {:induction false} ScanQuoted(s: string, doc: string, pos: nat)
    requires pos <= |doc| && StandsAt(doc, pos, Strings.Escaped(s) + "\"")
    ensures StringEnd(doc, pos) == (true, pos + |Strings.Escaped(s)| + 1)
    decreases |s|
  {
    hide Strings.Escape;
    if s == "" {
      assert (Strings.Escaped(s) + "\"")[0] == '\"';
    } else {
      var e, behind := Strings.Escape(s[0]), Strings.Escaped(s[1..]) + "\"";
      assert Strings.Escaped(s) + "\"" == e + behind;
      StandsSplit(doc, pos, e, behind);
      ScanEscape(s[0], doc, pos);
      ScanQuoted(s[1..], doc, pos + |e|);
    }
  }

  lemma ScanString(doc: string, start: nat, s: string)
    requires start <= |doc| && Matches(doc, start, Strings.Quote(s))
    ensures Scan(doc, start) == Token(StringToken, start, start + |Strings.Quote(s)|)
  {
    MatchesStands(doc, start, Strings.Quote(s));
    assert Strings.Quote(s) == "\"" + (Strings.Escaped(s) + "\"");
    StandsSplit(doc, start, "\"", Strings.Escaped(s) + "\"");
    ScanQuoted(s, doc, start + 1);
  }

  /** Punctuation and the three words. */
  lemma ScanFixed(doc: string, start: nat, l: Lexeme)
    requires start <= |doc| && Proper(l) && l.kind != StringToken && l.kind != NumberToken
    requires Matches(doc, start, l.text)
    ensures l.text != "" && !IsSpace(l.text[0])
    ensures Scan(doc, start) == Token(l.kind, start, start + |l.text|)
  {
    var end := start + |l.text|;
    assert doc[start] == doc[start..end][0] == l.text[0];
    assert doc[start+1..end] == doc[start..end][1..] == l.text[1..];
  }

  lemma {:induction false} DigitsRun(doc: string, pos: nat, end: nat)
    requires pos <= end <= |doc| && forall k :: pos <= k < end ==> Numbers.IsDigit(doc[k])
    requires end == |doc| || !Numbers.IsDigit(doc[end])
    ensures DigitsEnd(doc, pos) == end
    decreases end - pos
  {
    if pos < end {
      DigitsRun(doc, pos + 1, end);
    }
  }

  lemma ScanInteger(doc: string, start: nat, end: nat, i: int)
    requires start < end <= |doc| && doc[start..end] == Numbers.IntText(i)
    requires end == |doc| || !NumberChar(doc[end])
    ensures Scan(doc, start) == Token(NumberToken, start, end)
  {
    var text := Numbers.IntText(i);
    assert forall k :: 0 <= k < |text| ==> doc[start..end][k] == text[k];
    assert doc[start] == text[0];
    assert forall k :: start < k < end ==> doc[k] == text[k-start];
    DigitsRun(doc, start + 1, end);
    assert NumberEnd(doc, start + 1) == end;
    if i < 0 {
      assert doc[start+1] == text[1];
    }
  }

  /** A proper token begins with no white space, and is lexed as itself in front of anything that delimits it. */
  lemma ScanProper(doc: string, start: nat, l: Lexeme)
    requires start <= |doc| && Proper(l) && Matches(doc, start, l.text)
    requires l.kind == NumberToken ==> Delimited(doc[start+|l.text|..])
    ensures l.text != "" && !IsSpace(l.text[0])
    ensures l.kind != EndOfStream && Scan(doc, start) == Token(l.kind, start, start + |l.text|)
  {
    if l.kind == StringToken {
      var s :| l.text == Strings.Quote(s);
      ScanString(doc, start, s);
    } else if l.kind == NumberToken {
      var i :| l.text == Numbers.IntText(i);
      assert start + |l.text| < |doc| ==> doc[start+|l.text|] == doc[start+|l.text|..][0];
      ScanInteger(doc, start, start + |l.text|, i);
    } else {
      ScanFixed(doc, start, l);
    }
  }

  lemma {:induction false} SkipSpacesShift(doc: string, pos: nat, k: nat)
    requires pos + k <= |doc|
    ensures SkipSpaces(doc, pos + k) == pos + SkipSpaces(doc[pos..], k)
    decreases |doc| - pos - k
  {
    if pos + k < |doc| {
      SkipSpacesShift(doc, pos, k + 1);
    }
  }

  lemma LexHead(doc: string, pos: nat, h: Lexeme)
    requires pos <= |doc| && Proper(h)
    requires var rest := doc[pos..];
             var k := SkipSpaces(rest, 0);
             Matches(rest, k, h.text) && (h.kind == NumberToken ==> Delimited(rest[k+|h.text|..]))
    ensures var t := ReadToken(doc, pos);
            && t.kind == h.kind != EndOfStream && Text(doc, t) == h.text
            && doc[t.end..] == doc[pos..][SkipSpaces(doc[pos..], 0)+|h.text|..]
  {
    hide Scan, Proper, Delimited, SkipSpaces;
    var rest := doc[pos..];
    var k := SkipSpaces(rest, 0);
    SkipSpacesShift(doc, pos, 0);
    var end := pos + k + |h.text|;
    assert rest[k+|h.text|..] == doc[end..];
    assert rest[k..k+|h.text|] == doc[pos+k..end];
    ScanProper(doc, pos + k, h);
  }

  /** A text that spells tokens is lexed into exactly those tokens. */
  lemma {:induction false} LexSpelled(doc: string, pos: nat, l: Lexemes)
    requires pos <= |doc| && Spells(doc[pos..], l)
    ensures Lex(doc, pos) == l
    decreases l
  {
    hide Scan, Proper, Delimited;
    if l.Cons? {
      LexHead(doc, pos, l.head);
      LexSpelled(doc, ReadToken(doc, pos).end, l.tail);
    } else {
      SkipSpacesShift(doc, pos, 0);
    }
  }

  /** Putting a token in front. */
  lemma SpellsToken(h: Lexeme, text: string, l: Lexemes)
    requires Proper(h) && Spells(text, l) && (h.kind == NumberToken ==> Delimited(text))
    ensures Spells(h.text + text, Cons(h, l))
  {
    var all := h.text + text;
    assert all[..|h.text|] == h.text && all[|h.text|..] == text;
    ScanProper(all, 0, h);
    assert SkipSpaces(all, 0) == 0;
  }

  lemma SkipsOneSpace(c: char, text: string)
    requires IsSpace(c)
    ensures SkipSpaces([c] + text, 0) == 1 + SkipSpaces(text, 0)
  {
    var all := [c] + text;
    assert all[1..] == text;
    SkipSpacesShift(all, 1, 0);
  }

  lemma BehindOne(c: char, text: string, k: nat, n: nat)
    requires k + n <= |text|
    ensures ([c] + text)[k+1..k+1+n] == text[k..k+n] && ([c] + text)[k+1+n..] == text[k+n..]
  {
  }

  lemma SpellsOneSpace(c: char, text: string, l: Lexemes)
    requires IsSpace(c) && Spells(text, l)
    ensures Spells([c] + text, l)
  {
    SkipsOneSpace(c, text);
    hide Proper, SkipSpaces, Delimited, IsSpace;
    if l.Cons? {
      BehindOne(c, text, SkipSpaces(text, 0), |l.head.text|);
    }
  }

  /** Putting white space in front. */
  lemma {:induction false} SpellsSpace(space: string, text: string, l: Lexemes)
    requires AllSpace(space) && Spells(text, l)
    ensures Spells(space + text, l)
    decreases |space|
  {
    hide Spells;
    if space == "" {
      assert space + text == text;
    } else {
      SpellsSpace(space[1..], text, l);
      SpellsOneSpace(space[0], space[1..] + text, l);
      assert space + text == [space[0]] + (space[1..] + text);
    }
  }

  /** A text as a writer produces it: tokens and white space in turn. */
  datatype Pieces = End | Lexed(lexeme: Lexeme, rest: Pieces) | Space(text: string, rest: Pieces)

  function Render(p: Pieces): string {
    match p
    case End => ""
    case Lexed(l, r) => l.text + Render(r)
    case Space(s, r) => s + Render(r)
  }

  function Strip(p: Pieces): Lexemes {
    match p
    case End => Nil
    case Lexed(l, r) => Cons(l, Strip(r))
    case Space(_, r) => Strip(r)
  }

  /** Tokens without white space between them. */
  function Bare(l: Lexemes): Pieces {
    match l
    case Nil => End
    case Cons(h, t) => Lexed(h, Bare(t))
  }

  lemma {:induction false} StripBare(l: Lexemes)
    ensures Strip(Bare(l)) == l
  {
    if l.Cons? {
      StripBare(l.tail);
    }
  }

  predicate Punctuation(l: Lexeme) {
    l.kind in {ObjectBegin, ObjectEnd, ArrayBegin, ArrayEnd, ArraySeparator, MemberSeparator}
  }

  /** What may stand behind a number: nothing, white space or punctuation. */
  ghost predicate Closed(p: Pieces) {
    match p
    case End => true
    case Lexed(l, _) => Punctuation(l)
    case Space(s, r) => s == "" ==> Closed(r)
  }

  ghost predicate Orderly(p: Pieces) {
    match p
    case End => true
    case Lexed(l, r) => Proper(l) && Orderly(r) && (l.kind == NumberToken ==> Closed(r))
    case Space(s, r) => AllSpace(s) && Orderly(r)
  }

  lemma {:induction false} ClosedDelimits(p: Pieces)
    requires Orderly(p) && Closed(p)
    ensures Delimited(Render(p))
  {
    match p
    case End =>
    case Lexed(l, r) => assert Render(p)[0] == l.text[0];
    case Space(s, r) =>
      if s == "" {
        ClosedDelimits(r);
        assert Render(p) == Render(r);
      } else {
        assert Render(p)[0] == s[0];
      }
  }

  /** The text of an orderly sequence of pieces spells its tokens. */
  lemma {:induction false} RenderSpells(p: Pieces)
    requires Orderly(p)
    ensures Spells(Render(p), Strip(p))
  {
    match p
    case End =>
    case Lexed(l, r) =>
      RenderSpells(r);
      if l.kind == NumberToken {
        ClosedDelimits(r);
      }
      SpellsToken(l, Render(r), Strip(r));
    case Space(s, r) =>
      RenderSpells(r);
      SpellsSpace(s, Render(r), Strip(r));
  }

  /** So its text is lexed into its tokens. */
  lemma RenderLexes(p: Pieces)
    requires Orderly(p)
    ensures Lex(Render(p), 0) == Strip(p)
  {
    RenderSpells(p);
    assert Render(p)[0..] == Render(p);
    LexSpelled(Render(p), 0, Strip(p));
  }
}
