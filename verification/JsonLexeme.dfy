/**
 The token sequence of a document and of a value tree, and the proof that the reader is a
 function of the token sequence alone: white space, layout and position do not matter.
 */
module JsonLexeme {
  import opened JsonValue
  import Numbers = JsonNumber
  import Strings = JsonString
  import opened JsonToken
  import opened JsonGrammar
  import opened JsonCanonical
  import opened Options

  datatype Lexeme = Lexeme(kind: TokenType, text: string)

  /** `valueToString(double)`, whose formatting is left open. */
  type DoubleText = real -> string

  datatype Lexemes = Nil | Cons(head: Lexeme, tail: Lexemes)

  /** The tokens from `pos` to the end of the stream. */
  ghost function Lex(doc: string, pos: nat): Lexemes
    requires pos <= |doc|
    decreases |doc| - pos
  {
    var t := ReadToken(doc, pos);
    if t.kind == EndOfStream then Nil else Cons(Lexeme(t.kind, Text(doc, t)), Lex(doc, t.end))
  }

  const COMMA := Lexeme(ArraySeparator, ",")
  const COLON := Lexeme(MemberSeparator, ":")
  const OPEN_ARRAY := Lexeme(ArrayBegin, "[")
  const CLOSE_ARRAY := Lexeme(ArrayEnd, "]")
  const OPEN_OBJECT := Lexeme(ObjectBegin, "{")
  const CLOSE_OBJECT := Lexeme(ObjectEnd, "}")

  /** A comma before every element but the first. */
  function Comma(k: nat, rest: Lexemes): Lexemes {
    if k > 0 then Cons(COMMA, rest) else rest
  }

  function ScalarLexeme(fmt: DoubleText, v: Value): Lexeme
    requires !v.Arr? && !v.Obj?
  {
    match v
    case Null => Lexeme(NullToken, "null")
    case Int(i) => Lexeme(NumberToken, Numbers.IntText(i))
    case UInt(u) => Lexeme(NumberToken, Numbers.IntText(u))
    case Real(r) => Lexeme(NumberToken, fmt(r))
    case Str(s) => Lexeme(StringToken, Strings.Quote(s))
    case Bool(b) => if b then Lexeme(TrueToken, "true") else Lexeme(FalseToken, "false")
  }

  /** The tokens of a value, followed by `rest`. */
  function Tokens(fmt: DoubleText, v: Value, rest: Lexemes): (r: Lexemes)
    ensures r.Cons?
    decreases v, 1, 0
  {
    match v
    case Arr(es) => Cons(OPEN_ARRAY, ElementTokens(fmt, es, 0, Cons(CLOSE_ARRAY, rest)))
    case Obj(es) => Cons(OPEN_OBJECT, MemberTokens(fmt, es, 0, Cons(CLOSE_OBJECT, rest)))
    case _ => Cons(ScalarLexeme(fmt, v), rest)
  }

  /** The tokens of the elements from index `k` on, each with the comma before it. */
  function ElementTokens(fmt: DoubleText, es: seq<Entry>, k: nat, rest: Lexemes): Lexemes
    requires k <= |es|
    decreases es, 0, |es| - k
  {
    if k == |es| then rest
    else
      assert es[k].value < es[k];
      Comma(k, Tokens(fmt, es[k].value, ElementTokens(fmt, es, k + 1, rest)))
  }

  function NameText(key: Key): string {
    match key
    case Name(s) => Strings.Quote(s)
    case Index(_) => Strings.Quote("")
  }

  function MemberTokens(fmt: DoubleText, es: seq<Entry>, k: nat, rest: Lexemes): Lexemes
    requires k <= |es|
    decreases es, 0, |es| - k
  {
    if k == |es| then rest
    else
      assert es[k].value < es[k];
      Comma(k, Cons(Lexeme(StringToken, NameText(es[k].key)), Cons(COLON,
            Tokens(fmt, es[k].value, MemberTokens(fmt, es, k + 1, rest)))))
  }

  /** The head of the token sequence is the token the reader takes next. */
  lemma TakeLexeme(doc: string, pos: nat)
    requires pos <= |doc| && Lex(doc, pos).Cons? && Lex(doc, pos).head.kind != Comment
    ensures NextToken(doc, pos) == ReadToken(doc, pos)
    ensures var t := ReadToken(doc, pos);
            t.kind != EndOfStream && Lex(doc, pos) == Cons(Lexeme(t.kind, Text(doc, t)), Lex(doc, t.end))
  {
  }

  lemma {:induction false} SkipSpacesTwice(doc: string, pos: nat)
    requires pos <= |doc|
    ensures var p := SkipSpaces(doc, pos);
            (p < |doc| ==> !IsSpace(doc[p])) && SkipSpaces(doc, p) == p
    decreases |doc| - pos
  {
    if pos < |doc| && IsSpace(doc[pos]) {
      SkipSpacesTwice(doc, pos + 1);
    }
  }

  /** What the reader does with a value of height `height` at this depth: reads it, or stops at the stack limit. */
  ghost predicate Reads(r: Step, doc: string, depth: nat, height: nat, v: Value, rest: Lexemes)
    requires r.Ok? ==> r.pos <= |doc|
  {
    if depth + height <= STACK_LIMIT + 1
    then r.Ok? && r.val == v && Lex(doc, r.pos) == rest
    else r == Threw(StackLimitExceeded)
  }

  /** The text of a scalar decodes to it. */
  lemma ScalarDecodes(scan: ScanDouble, fmt: DoubleText, v: Value)
    requires Canonical(v) && DoubleFree(v) && !v.Arr? && !v.Obj?
    ensures var l := ScalarLexeme(fmt, v);
            && (l.kind == NumberToken ==> l.text != "" && DecodeNumber(scan, l.text) == Some(v))
            && (l.kind == StringToken ==> |l.text| >= 2 && v.Str? && Strings.DecodeQuoted(l.text) == Strings.Success(v.s))
  {
    match v
    case Int(i) => Numbers.IntegerRoundTrip(i);
    case UInt(u) => Numbers.IntegerRoundTrip(u);
    case Str(s) => Strings.QuoteRoundTrip(s);
    case _ =>
  }

  lemma ReadsScalar(scan: ScanDouble, fmt: DoubleText, doc: string, pos: nat, depth: nat,
                    current: Value, v: Value, rest: Lexemes)
    requires pos <= |doc| && Canonical(v) && DoubleFree(v) && !v.Arr? && !v.Obj? && depth <= STACK_LIMIT
    requires Lex(doc, pos) == Cons(ScalarLexeme(fmt, v), rest)
    ensures Reads(ReadValue(scan, doc, pos, depth, current), doc, depth, 1, v, rest)
  {
    hide Canonical, DoubleFree, ReadMembers, ReadElements, Scan, DecodeNumber, Strings.DecodeQuoted, Strings.Quote, Numbers.IntText;
    TakeLexeme(doc, pos);
    ScalarDecodes(scan, fmt, v);
  }

  /**
   Wherever the tokens of a canonical tree stand next in the document, the reader returns
   that tree and stops behind its last token, unless the tree is nested beyond the stack limit.
   */
  lemma {:induction false} ReadsTokens(scan: ScanDouble, fmt: DoubleText, doc: string, pos: nat, depth: nat,
                                       current: Value, v: Value, rest: Lexemes)
    requires pos <= |doc| && Canonical(v) && DoubleFree(v)
    requires Lex(doc, pos) == Tokens(fmt, v, rest)
    ensures Reads(ReadValue(scan, doc, pos, depth, current), doc, depth, Height(v), v, rest)
    decreases v, 3, 0
  {
    hide Lex, Canonical, DoubleFree, EntriesHeight, ReadMembers, ReadElements, ScalarLexeme, ElementTokens, MemberTokens;
    if depth <= STACK_LIMIT {
      match v
      case Arr(es) => ReadsArray(scan, fmt, doc, pos, depth, current, es, rest);
      case Obj(es) => ReadsObject(scan, fmt, doc, pos, depth, current, es, rest);
      case _ => ReadsScalar(scan, fmt, doc, pos, depth, current, v, rest);
    }
  }

  /** What the loops need of child `k`: its value is readable and its key comes next in order. */
  ghost predicate Child(es: seq<Entry>, k: nat)
    requires k < |es|
  {
    && Canonical(es[k].value) && DoubleFree(es[k].value)
    && LowerBound(es[..k], es[k].key) == k
    && (es[k].key.Name? ==> |es[k].key.s| < KEY_LENGTH_LIMIT)
  }

  ghost predicate Elements(es: seq<Entry>) {
    forall k :: 0 <= k < |es| ==> es[k].key == Index(k) && Child(es, k)
  }

  ghost predicate Members(es: seq<Entry>) {
    forall k :: 0 <= k < |es| ==> es[k].key.Name? && Child(es, k)
  }

  lemma Children(v: Value)
    requires Canonical(v) && DoubleFree(v)
    ensures v.Arr? ==> Elements(v.entries)
    ensures v.Obj? ==> Members(v.entries)
  {
    if v.Arr? || v.Obj? {
      forall k | 0 <= k < |v.entries| ensures Child(v.entries, k) {
        PutLast(v.entries[..k], v.entries[k].key, Null);
      }
    }
  }

  lemma PutNext(es: seq<Entry>, k: nat)
    requires k < |es| && Child(es, k)
    ensures Put(es[..k], es[k].key, es[k].value) == es[..k+1]
  {
  }

  /** An opening brace leads to the member loop. */
  lemma OpensObject(scan: ScanDouble, doc: string, pos: nat, depth: nat, current: Value)
    requires pos <= |doc| && depth <= STACK_LIMIT && NextToken(doc, pos).kind == ObjectBegin
    ensures ReadValue(scan, doc, pos, depth, current) == ReadMembers(scan, doc, NextToken(doc, pos).end, depth, [], "")
  {
    hide ReadMembers, ReadElements, NextToken;
  }

  lemma ClosesObject(scan: ScanDouble, doc: string, pos: nat, depth: nat)
    requires pos <= |doc| && NextToken(doc, pos).kind == ObjectEnd
    ensures ReadMembers(scan, doc, pos, depth, [], "") == Ok(NextToken(doc, pos).end, Obj([]))
  {
    hide ReadMember, NextToken;
  }

  lemma {:induction false} ReadsObject(scan: ScanDouble, fmt: DoubleText, doc: string, pos: nat, depth: nat,
                                       current: Value, es: seq<Entry>, rest: Lexemes)
    requires pos <= |doc| && Canonical(Obj(es)) && DoubleFree(Obj(es)) && depth <= STACK_LIMIT
    requires Lex(doc, pos) == Cons(OPEN_OBJECT, MemberTokens(fmt, es, 0, Cons(CLOSE_OBJECT, rest)))
    ensures Reads(ReadValue(scan, doc, pos, depth, current), doc, depth, 1 + EntriesHeight(es), Obj(es), rest)
    decreases es, 2, 0
  {
    hide Lex, Canonical, DoubleFree, ReadValue, ReadMembers, Members, ReadToken, NextToken, Tokens;
    TakeLexeme(doc, pos);
    var t := NextToken(doc, pos);
    OpensObject(scan, doc, pos, depth, current);
    Children(Obj(es));
    if es == [] {
      TakeLexeme(doc, t.end);
      ClosesObject(scan, doc, t.end, depth);
    } else {
      assert es[0..] == es && es[..0] == [];
      ReadsMembers(scan, fmt, doc, t.end, depth, es, 0, "", rest);
    }
  }

  /** The first token of an array body closes the array just when the array is empty. */
  lemma FirstElementToken(fmt: DoubleText, es: seq<Entry>, rest: Lexemes)
    ensures var l := ElementTokens(fmt, es, 0, Cons(CLOSE_ARRAY, rest));
            if es == [] then l == Cons(CLOSE_ARRAY, rest)
            else l.Cons? && l.head.kind != Comment && l.head.kind != ArrayEnd
  {
  }

  /** Skipping white space first changes no token, and a closing bracket there is the next token. */
  lemma PeekCloses(doc: string, pos: nat)
    requires pos <= |doc| && Lex(doc, pos).Cons? && Lex(doc, pos).head.kind != Comment
    ensures var p := SkipSpaces(doc, pos);
            && Lex(doc, p) == Lex(doc, pos)
            && (Lex(doc, pos).head == CLOSE_ARRAY ==> p < |doc| && doc[p] == ']' && Lex(doc, p + 1) == Lex(doc, pos).tail)
            && (Lex(doc, pos).head.kind != ArrayEnd ==> p < |doc| && doc[p] != ']')
  {
    var p := SkipSpaces(doc, pos);
    SkipSpacesTwice(doc, pos);
    assert ReadToken(doc, p) == ReadToken(doc, pos);
    TakeLexeme(doc, pos);
    assert Text(doc, ReadToken(doc, pos))[0] == doc[p];
  }

  lemma {:induction false} ReadsArray(scan: ScanDouble, fmt: DoubleText, doc: string, pos: nat, depth: nat,
                                      current: Value, es: seq<Entry>, rest: Lexemes)
    requires pos <= |doc| && Canonical(Arr(es)) && DoubleFree(Arr(es)) && depth <= STACK_LIMIT
    requires Lex(doc, pos) == Cons(OPEN_ARRAY, ElementTokens(fmt, es, 0, Cons(CLOSE_ARRAY, rest)))
    ensures Reads(ReadValue(scan, doc, pos, depth, current), doc, depth, 1 + EntriesHeight(es), Arr(es), rest)
    decreases es, 2, 0
  {
    hide Lex, Canonical, DoubleFree, ReadMembers, ReadElements, Elements, Scan, Tokens, ElementTokens, SkipSpaces;
    TakeLexeme(doc, pos);
    var t := NextToken(doc, pos);
    Children(Arr(es));
    FirstElementToken(fmt, es, rest);
    PeekCloses(doc, t.end);
    if es != [] {
      assert es[0..] == es && es[..0] == [];
      ReadsElements(scan, fmt, doc, SkipSpaces(doc, t.end), depth, es, 0, rest);
    }
  }

  /** Behind the last child the loop ends with the whole container; otherwise it consumes a comma. */
  ghost predicate EndsOrGoesOn(r: Pass, doc: string, whole: Value, last: bool, done: seq<Entry>, behind: Lexemes, rest: Lexemes)
    requires r.Inside(0, |doc|)
  {
    if last then r.Stop? && r.step.Ok? && r.step.val == whole && Lex(doc, r.step.pos) == rest
    else r.More? && r.entries == done && Cons(COMMA, Lex(doc, r.pos)) == behind
  }

  lemma ReadsAfterElement(fmt: DoubleText, doc: string, pos: nat, es: seq<Entry>, k: nat, rest: Lexemes)
    requires pos <= |doc| && k < |es|
    requires Lex(doc, pos) == ElementTokens(fmt, es, k + 1, Cons(CLOSE_ARRAY, rest))
    ensures EndsOrGoesOn(AfterElement(doc, pos, es[..k+1]), doc, Arr(es), k + 1 == |es|, es[..k+1], Lex(doc, pos), rest)
  {
    TakeLexeme(doc, pos);
    assert k + 1 == |es| ==> es[..k+1] == es;
  }

  lemma EntriesHeightFrom(es: seq<Entry>, k: nat)
    requires k < |es|
    ensures var h, t := Height(es[k].value), EntriesHeight(es[k+1..]);
            EntriesHeight(es[k..]) == if h > t then h else t
  {
    assert es[k..][0] == es[k] && es[k..][1..] == es[k+1..];
  }

  /** The loop of `readArray` at element `k`, its comma already consumed. */
  lemma {:induction false} ReadsElements(scan: ScanDouble, fmt: DoubleText, doc: string, pos: nat, depth: nat,
                                         es: seq<Entry>, k: nat, rest: Lexemes)
    requires pos <= |doc| && Elements(es) && k < |es| && depth <= STACK_LIMIT
    requires Comma(k, Lex(doc, pos)) == ElementTokens(fmt, es, k, Cons(CLOSE_ARRAY, rest))
    ensures Reads(ReadElements(scan, doc, pos, depth, es[..k]), doc, depth, 1 + EntriesHeight(es[k..]), Arr(es), rest)
    decreases es, 1, |es| - k
  {
    assert es[k].value < es[k] && Child(es, k);
    var p := ReadsElement(scan, fmt, doc, pos, depth, es[..k], es[k].value,
                          ElementTokens(fmt, es, k + 1, Cons(CLOSE_ARRAY, rest)));
    EntriesHeightFrom(es, k);
    if depth + Height(es[k].value) <= STACK_LIMIT {
      PutNext(es, k);
      ReadsAfterElement(fmt, doc, p, es, k, rest);
      match AfterElement(doc, p, es[..k+1])
      case Stop(_) =>
      case More(p', _) => ReadsElements(scan, fmt, doc, p', depth, es, k + 1, rest);
    }
  }

  /** An element, up to the position `p` after its value. */
  lemma {:induction false} ReadsElement(scan: ScanDouble, fmt: DoubleText, doc: string, pos: nat, depth: nat,
                                        done: seq<Entry>, value: Value, behind: Lexemes)
    returns (p: nat)
    requires pos <= |doc| && Canonical(value) && DoubleFree(value)
    requires Lex(doc, pos) == Tokens(fmt, value, behind)
    ensures p <= |doc|
    ensures var r := ReadElement(scan, doc, pos, depth, done);
            if depth + Height(value) <= STACK_LIMIT
            then r == AfterElement(doc, p, Put(done, Index(|done|), value)) && Lex(doc, p) == behind
            else r == Stop(Threw(StackLimitExceeded))
    decreases value, 4, 0
  {
    hide Tokens, Lex, Canonical, DoubleFree, Height, AfterElement;
    ReadsTokens(scan, fmt, doc, pos, depth + 1, Null, value, behind);
    var r := ReadValue(scan, doc, pos, depth + 1, Null);
    p := if r.Ok? then r.pos else pos;
  }

  /** The loop of `readObject` in front of a quoted name. */
  lemma TakesName(scan: ScanDouble, doc: string, pos: nat, depth: nat, done: seq<Entry>, name: string, key: string)
    requires pos <= |doc| && Lex(doc, pos).Cons? && Lex(doc, pos).head == Lexeme(StringToken, Strings.Quote(key))
    ensures var t := NextToken(doc, pos);
            Lex(doc, t.end) == Lex(doc, pos).tail &&
            ReadMembers(scan, doc, pos, depth, done, name) ==
            match ReadMember(scan, doc, t.end, depth, done, key)
            case Stop(r) => r
            case More(p, es) => ReadMembers(scan, doc, p, depth, es, key)
  {
    TakeLexeme(doc, pos);
    Strings.QuoteRoundTrip(key);
  }

  lemma ReadsAfterMember(fmt: DoubleText, doc: string, pos: nat, es: seq<Entry>, k: nat, rest: Lexemes)
    requires pos <= |doc| && k < |es|
    requires Lex(doc, pos) == MemberTokens(fmt, es, k + 1, Cons(CLOSE_OBJECT, rest))
    ensures AfterMember(doc, pos, es[..k+1]).Inside(0, |doc|)
    ensures EndsOrGoesOn(AfterMember(doc, pos, es[..k+1]), doc, Obj(es), k + 1 == |es|, es[..k+1], Lex(doc, pos), rest)
  {
    TakeLexeme(doc, pos);
    assert k + 1 == |es| ==> es[..k+1] == es;
  }

  /** The loop of `readObject` at member `k`, its comma already consumed. */
  lemma {:induction false} ReadsMembers(scan: ScanDouble, fmt: DoubleText, doc: string, pos: nat, depth: nat,
                                        es: seq<Entry>, k: nat, name: string, rest: Lexemes)
    requires pos <= |doc| && Members(es) && k < |es| && depth <= STACK_LIMIT
    requires Comma(k, Lex(doc, pos)) == MemberTokens(fmt, es, k, Cons(CLOSE_OBJECT, rest))
    ensures Reads(ReadMembers(scan, doc, pos, depth, es[..k], name), doc, depth, 1 + EntriesHeight(es[k..]), Obj(es), rest)
    decreases es, 1, |es| - k
  {
    assert es[k].value < es[k] && Child(es, k);
    var key, value := es[k].key.s, es[k].value;
    TakesName(scan, doc, pos, depth, es[..k], name, key);
    var t := NextToken(doc, pos);
    var p := ReadsMember(scan, fmt, doc, t.end, depth, es[..k], key, value,
                         MemberTokens(fmt, es, k + 1, Cons(CLOSE_OBJECT, rest)));
    EntriesHeightFrom(es, k);
    if depth + Height(value) <= STACK_LIMIT {
      PutNext(es, k);
      ReadsAfterMember(fmt, doc, p, es, k, rest);
      match AfterMember(doc, p, es[..k+1])
      case Stop(_) =>
      case More(p', _) => ReadsMembers(scan, fmt, doc, p', depth, es, k + 1, key, rest);
    }
  }

  /** A member behind its name, up to the position `p` after its value. */
  lemma {:induction false} ReadsMember(scan: ScanDouble, fmt: DoubleText, doc: string, pos: nat, depth: nat,
                                       done: seq<Entry>, key: string, value: Value, behind: Lexemes)
    returns (p: nat)
    requires pos <= |doc| && Canonical(value) && DoubleFree(value) && |key| < KEY_LENGTH_LIMIT
    requires Lex(doc, pos) == Cons(COLON, Tokens(fmt, value, behind))
    ensures p <= |doc|
    ensures var r := ReadMember(scan, doc, pos, depth, done, key);
            if depth + Height(value) <= STACK_LIMIT
            then r == AfterMember(doc, p, Put(done, Name(key), value)) && Lex(doc, p) == behind
            else r == Stop(Threw(StackLimitExceeded))
    decreases value, 5, 0
  {
    TakeLexeme(doc, pos);
    p := ReadsNamed(scan, fmt, doc, ReadToken(doc, pos).end, depth, done, key, value, behind);
  }

  lemma {:induction false} ReadsNamed(scan: ScanDouble, fmt: DoubleText, doc: string, pos: nat, depth: nat,
                                      done: seq<Entry>, key: string, value: Value, behind: Lexemes)
    returns (p: nat)
    requires pos <= |doc| && Canonical(value) && DoubleFree(value) && |key| < KEY_LENGTH_LIMIT
    requires Lex(doc, pos) == Tokens(fmt, value, behind)
    ensures p <= |doc|
    ensures var r := ReadNamed(scan, doc, pos, depth, done, key);
            if depth + Height(value) <= STACK_LIMIT
            then r == AfterMember(doc, p, Put(done, Name(key), value)) && Lex(doc, p) == behind
            else r == Stop(Threw(StackLimitExceeded))
    decreases value, 4, 0
  {
    hide Tokens, Lex, Canonical, DoubleFree, Height, AfterMember;
    ReadsTokens(scan, fmt, doc, pos, depth + 1, Get(done, Name(key)), value, behind);
    var r := ReadValue(scan, doc, pos, depth + 1, Get(done, Name(key)));
    p := if r.Ok? then r.pos else pos;
  }
}
