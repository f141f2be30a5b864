/**
 What `OurReader::readToken` recognises under the default features: comments allowed,
 no single quotes and no special floats.  Positions index the document.
 */
module JsonToken {
  import opened JsonNumber

  datatype TokenType =
    | EndOfStream | ObjectBegin | ObjectEnd | ArrayBegin | ArrayEnd
    | StringToken | NumberToken | TrueToken | FalseToken | NullToken
    | ArraySeparator | MemberSeparator | Comment | ErrorToken

  datatype Token = Token(kind: TokenType, start: nat, end: nat)

  predicate IsSpace(c: char) {
    c == ' ' || c == '\t' || c == '\r' || c == '\n'
  }

  /** `skipSpaces`: the first position at or after `pos` that holds no white space. */
  function SkipSpaces(doc: string, pos: nat): (r: nat)
    requires pos <= |doc|
    ensures pos <= r <= |doc|
    decreases |doc| - pos
  {
    if pos < |doc| && IsSpace(doc[pos]) then SkipSpaces(doc, pos + 1) else pos
  }

  /** What is skipped are spaces, tabs and the two characters of line ends, and all of them. */
  lemma {:induction false} SkipsSpaces(doc: string, pos: nat)
    requires pos <= |doc|
    ensures var r := SkipSpaces(doc, pos);
            (forall k :: pos <= k < r ==> doc[k] in " \t\r\n") && (r < |doc| ==> doc[r] !in " \t\r\n")
    decreases |doc| - pos
  {
    if pos < |doc| && IsSpace(doc[pos]) {
      SkipsSpaces(doc, pos + 1);
    }
  }

  /** `match`. */
  predicate Matches(doc: string, pos: nat, pattern: string)
    requires pos <= |doc|
  {
    pos + |pattern| <= |doc| && doc[pos..pos+|pattern|] == pattern
  }

  function DigitsEnd(doc: string, pos: nat): (r: nat)
    requires pos <= |doc|
    ensures pos <= r <= |doc|
    decreases |doc| - pos
  {
    if pos < |doc| && IsDigit(doc[pos]) then DigitsEnd(doc, pos + 1) else pos
  }

  function FractionEnd(doc: string, pos: nat): (r: nat)
    requires pos <= |doc|
    ensures pos <= r <= |doc|
  {
    if pos < |doc| && doc[pos] == '.' then DigitsEnd(doc, pos + 1) else pos
  }

  function ExponentEnd(doc: string, pos: nat): (r: nat)
    requires pos <= |doc|
    ensures pos <= r <= |doc|
  {
    if pos < |doc| && (doc[pos] == 'e' || doc[pos] == 'E') then
      if pos + 1 < |doc| && (doc[pos+1] == '+' || doc[pos+1] == '-')
      then DigitsEnd(doc, pos + 2) else DigitsEnd(doc, pos + 1)
    else pos
  }

  /** `readNumber` after its first character: digits, an optional fraction, an optional exponent. */
  function NumberEnd(doc: string, pos: nat): (r: nat)
    requires pos <= |doc|
    ensures pos <= r <= |doc|
  {
    ExponentEnd(doc, FractionEnd(doc, DigitsEnd(doc, pos)))
  }

  /** `readString` after the opening quote: whether a closing quote ends it, and the position reached. */
  function StringEnd(doc: string, pos: nat): (r: (bool, nat))
    requires pos <= |doc|
    ensures pos <= r.1 <= |doc|
    ensures r.0 ==> pos < r.1 && doc[r.1-1] == '\"'
    decreases |doc| - pos
  {
    if pos == |doc| then (false, pos)
    else if doc[pos] == '\"' then (true, pos + 1)
    else if doc[pos] == '\\' then
      if pos + 1 == |doc| then (false, pos + 1) else StringEnd(doc, pos + 2)
    else StringEnd(doc, pos + 1)
  }

  /** The loop of `readCStyleComment`: stops before the slash of the terminator or at the last character. */
  function BlockCommentEnd(doc: string, pos: nat): (r: nat)
    requires pos <= |doc|
    ensures pos <= r <= |doc|
    decreases |doc| - pos
  {
    if pos + 1 < |doc| then
      if doc[pos] == '*' && doc[pos+1] == '/' then pos + 1 else BlockCommentEnd(doc, pos + 1)
    else pos
  }

  /** `readCppStyleComment`: to the end of the line, a CR LF pair counting as one end. */
  function LineCommentEnd(doc: string, pos: nat): (r: nat)
    requires pos <= |doc|
    ensures pos <= r <= |doc|
    decreases |doc| - pos
  {
    if pos == |doc| then pos
    else if doc[pos] == '\n' then pos + 1
    else if doc[pos] == '\r' then
      if pos + 1 < |doc| && doc[pos+1] == '\n' then pos + 2 else pos + 1
    else LineCommentEnd(doc, pos + 1)
  }

  /** `readComment` after the first character. */
  function CommentEnd(doc: string, pos: nat): (r: (bool, nat))
    requires pos <= |doc|
    ensures pos <= r.1 <= |doc|
  {
    if pos == |doc| then (false, pos)
    else if doc[pos] == '*' then
      var p := BlockCommentEnd(doc, pos + 1);
      if p == |doc| then (false, p) else (doc[p] == '/', p + 1)
    else if doc[pos] == '/' then (true, LineCommentEnd(doc, pos + 1))
    else (false, pos + 1)
  }

  function Checked(kind: TokenType, start: nat, scanned: (bool, nat)): Token {
    Token(if scanned.0 then kind else ErrorToken, start, scanned.1)
  }

  function Word(doc: string, kind: TokenType, start: nat, pattern: string): Token
    requires start < |doc|
  {
    if Matches(doc, start + 1, pattern)
    then Token(kind, start, start + 1 + |pattern|)
    else Token(ErrorToken, start, start + 1)
  }

  /** The token that begins with the character at `start`.  An apostrophe falls through to the comment case. */
  function Scan(doc: string, start: nat): (t: Token)
    requires start < |doc|
    ensures t.start == start < t.end <= |doc|
    ensures t.kind == StringToken ==> t.end - start >= 2
  {
    var p := start + 1;
    match doc[start]
    case '{' => Token(ObjectBegin, start, p)
    case '}' => Token(ObjectEnd, start, p)
    case '[' => Token(ArrayBegin, start, p)
    case ']' => Token(ArrayEnd, start, p)
    case '\"' => Checked(StringToken, start, StringEnd(doc, p))
    case '\'' => Checked(Comment, start, CommentEnd(doc, p))
    case '/' => Checked(Comment, start, CommentEnd(doc, p))
    case '-' =>
      if p < |doc| && doc[p] == 'I'
      then Token(ErrorToken, start, p + 1)
      else Token(NumberToken, start, NumberEnd(doc, p))
    case 't' => Word(doc, TrueToken, start, "rue")
    case 'f' => Word(doc, FalseToken, start, "alse")
    case 'n' => Word(doc, NullToken, start, "ull")
    case ',' => Token(ArraySeparator, start, p)
    case ':' => Token(MemberSeparator, start, p)
    case '\0' => Token(EndOfStream, start, p)
    case c => if IsDigit(c) then Token(NumberToken, start, NumberEnd(doc, p)) else Token(ErrorToken, start, p)
  }

  /** `readToken`: every token consumes input unless the document is exhausted. */
  function ReadToken(doc: string, pos: nat): (t: Token)
    requires pos <= |doc|
    ensures pos <= t.start <= t.end <= |doc|
    ensures t.kind != EndOfStream ==> t.start < t.end
    ensures t.kind == StringToken ==> t.end - t.start >= 2
  {
    var start := SkipSpaces(doc, pos);
    if start == |doc| then Token(EndOfStream, start, start) else Scan(doc, start)
  }

  /** `skipCommentTokens`. */
  function NextToken(doc: string, pos: nat): (t: Token)
    requires pos <= |doc|
    ensures pos <= t.start <= t.end <= |doc|
    ensures t.kind != EndOfStream ==> t.start < t.end
    ensures t.kind == StringToken ==> t.end - t.start >= 2
    ensures t.kind != Comment
    decreases |doc| - pos
  {
    var t := ReadToken(doc, pos);
    if t.kind == Comment then NextToken(doc, t.end) else t
  }

  /** `recoverFromError`: the position after the next token of kind `stop`, or at the end of the stream. */
  function Recover(doc: string, pos: nat, stop: TokenType): (r: nat)
    requires pos <= |doc|
    ensures pos <= r <= |doc|
    decreases |doc| - pos
  {
    var t := ReadToken(doc, pos);
    if t.kind == stop || t.kind == EndOfStream then t.end else Recover(doc, t.end, stop)
  }

  /** The `n`-th token from a position on. */
  function TokenNumber(doc: string, pos: nat, n: nat): (t: Token)
    requires pos <= |doc|
    ensures t.end <= |doc|
    decreases n
  {
    if n == 0 then ReadToken(doc, pos) else TokenNumber(doc, ReadToken(doc, pos).end, n - 1)
  }

  /** Recovery goes behind the first token that is the one sought or the end of the stream. */
  lemma {:induction false} RecoverIs(doc: string, pos: nat, stop: TokenType) returns (n: nat)
    requires pos <= |doc|
    ensures Recover(doc, pos, stop) == TokenNumber(doc, pos, n).end
    ensures TokenNumber(doc, pos, n).kind in {stop, EndOfStream}
    ensures forall m: nat :: m < n ==> TokenNumber(doc, pos, m).kind !in {stop, EndOfStream}
    decreases |doc| - pos
  {
    hide ReadToken;
    var t := ReadToken(doc, pos);
    if t.kind == stop || t.kind == EndOfStream {
      n := 0;
    } else {
      var k := RecoverIs(doc, t.end, stop);
      n := k + 1;
      forall m: nat | m < n ensures TokenNumber(doc, pos, m).kind !in {stop, EndOfStream} {
        assert m > 0 ==> TokenNumber(doc, pos, m) == TokenNumber(doc, t.end, m - 1);
      }
    }
  }

  function Text(doc: string, t: Token): string
    requires t.start <= t.end <= |doc|
  {
    doc[t.start..t.end]
  }
}
