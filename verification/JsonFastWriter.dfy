/**
 `FastWriter`: the compact writer, which appends to its document in place.  Its text spells
 the tokens of the normal form of the tree, so reading it back gives the normal form.
 */
module JsonFastWriter {
  import opened JsonValue
  import Numbers = JsonNumber
  import Strings = JsonString
  import opened JsonCanonical
  import opened JsonToken
  import opened JsonLexeme
  import opened JsonSpelling

  /** The compact text of a tree: the tokens of its normal form, one after the other. */
  function Compact(fmt: DoubleText, v: Value): string {
    Render(Bare(Tokens(fmt, Normal(v), Nil)))
  }

  lemma {:induction false} EntryHeight(es: seq<Entry>, k: nat)
    requires k < |es|
    ensures Height(es[k].value) <= EntriesHeight(es)
  {
    if k > 0 {
      EntryHeight(es[1..], k - 1);
    }
  }

  lemma GetHeight(es: seq<Entry>, key: Key)
    requires es != []
    ensures Height(Get(es, key)) <= EntriesHeight(es)
  {
    EntryHeight(es, 0);
    if Has(es, key) {
      EntryHeight(es, LowerBound(es, key));
    }
  }

  class FastWriter {
    const fmt: DoubleText
    const omitEndingLineFeed: bool
    var document: string

    constructor (fmt: DoubleText, omitEndingLineFeed: bool)
      ensures this.fmt == fmt && this.omitEndingLineFeed == omitEndingLineFeed && document == ""
    {
      this.fmt := fmt;
      this.omitEndingLineFeed := omitEndingLineFeed;
      document := "";
    }

    method Write(root: Value) returns (text: string)
      requires Valid(root)
      modifies this
      ensures text == document == Compact(fmt, root) + if omitEndingLineFeed then "" else "\n"
    {
      document := "";
      WriteValue(root, Nil);
      assert document + "" == document;
      if !omitEndingLineFeed {
        document := document + "\n";
      }
      return document;
    }

    /** The document with tokens still to come behind it. */
    ghost function Followed(rest: Lexemes): string
      reads this
    {
      document + Render(Bare(rest))
    }

    method Append(text: string, ghost kind: TokenType, ghost rest: Lexemes)
      modifies this
      ensures document == old(document) + text
      ensures Followed(rest) == old(Followed(Cons(Lexeme(kind, text), rest)))
    {
      document := document + text;
    }

    /** Appends the tokens of the normal form of `value`; `rest` stands for what will be written behind them. */
    method WriteValue(value: Value, ghost rest: Lexemes)
      requires Valid(value)
      modifies this
      ensures Followed(rest) == old(Followed(Tokens(fmt, Normal(value), rest)))
      decreases Height(value), 1
    {
      match value {
        case Null => Append("null", NullToken, rest);
        case Int(i) =>
          var text := Numbers.ValueToString(i);
          Append(text, NumberToken, rest);
        case UInt(u) =>
          var text := Numbers.UIntValueToString(u);
          Append(text, NumberToken, rest);
        case Real(r) => Append(fmt(r), NumberToken, rest);
        case Str(s) =>
          var text := Strings.ValueToQuotedStringN(s);
          Append(text, StringToken, rest);
        case Bool(b) => Append(if b then "true" else "false", if b then TrueToken else FalseToken, rest);
        case Arr(es) => WriteArray(es, rest);
        case Obj(es) => WriteObject(es, rest);
      }
    }

    method WriteArray(es: seq<Entry>, ghost rest: Lexemes)
      requires Valid(Arr(es))
      modifies this
      ensures Followed(rest) == old(Followed(Tokens(fmt, Normal(Arr(es)), rest)))
      decreases 1 + EntriesHeight(es), 0
    {
      hide NormalElements, Render;
      var size := ArraySize(es);
      ghost var normal, close := NormalElements(es, size), Cons(CLOSE_ARRAY, rest);
      Append("[", ArrayBegin, ElementTokens(fmt, normal, 0, close));
      var index := 0;
      while index < size
        invariant 0 <= index <= size
        invariant Followed(ElementTokens(fmt, normal, index, close)) == old(Followed(Tokens(fmt, Normal(Arr(es)), rest)))
      {
        NormalElementsAt(es, size, index);
        GetHeight(es, Index(index));
        ghost var behind := ElementTokens(fmt, normal, index + 1, close);
        if index > 0 {
          Append(",", ArraySeparator, Tokens(fmt, normal[index].value, behind));
        }
        WriteValue(Get(es, Index(index)), behind);
        index := index + 1;
      }
      Append("]", ArrayEnd, rest);
    }

    /** A member name and its colon. */
    method WriteName(name: string, ghost value: Lexemes)
      modifies this
      ensures Followed(value) == old(Followed(Cons(Lexeme(StringToken, Strings.Quote(name)), Cons(COLON, value))))
    {
      var text := Strings.ValueToQuotedStringN(name);
      Append(text, StringToken, Cons(COLON, value));
      Append(":", MemberSeparator, value);
    }

    method WriteObject(es: seq<Entry>, ghost rest: Lexemes)
      requires Valid(Obj(es))
      modifies this
      ensures Followed(rest) == old(Followed(Tokens(fmt, Normal(Obj(es)), rest)))
      decreases 1 + EntriesHeight(es), 0
    {
      hide NormalMembers, Render;
      ghost var normal, close := NormalMembers(es), Cons(CLOSE_OBJECT, rest);
      Append("{", ObjectBegin, MemberTokens(fmt, normal, 0, close));
      var k := 0;
      while k != |es|
        invariant 0 <= k <= |es|
        invariant Followed(MemberTokens(fmt, normal, k, close)) == old(Followed(Tokens(fmt, Normal(Obj(es)), rest)))
      {
        NormalMembersAt(es, k);
        EntryHeight(es, k);
        if k != 0 {
          Append(",", ArraySeparator, MemberTokens(fmt, normal, k, close).tail);
        }
        WriteName(es[k].key.s, Tokens(fmt, normal[k].value, MemberTokens(fmt, normal, k + 1, close)));
        WriteValue(es[k].value, MemberTokens(fmt, normal, k + 1, close));
        k := k + 1;
      }
      Append("}", ObjectEnd, rest);
    }
  }

  lemma ScalarProper(fmt: DoubleText, v: Value)
    requires DoubleFree(v) && !v.Arr? && !v.Obj?
    ensures Proper(ScalarLexeme(fmt, v))
  {
  }

  /** The tokens of a double-free tree are orderly: a number is never followed by another scalar. */
  lemma {:induction false} TokensOrderly(fmt: DoubleText, v: Value, rest: Lexemes)
    requires DoubleFree(v) && Orderly(Bare(rest)) && Closed(Bare(rest))
    ensures Orderly(Bare(Tokens(fmt, v, rest)))
    decreases v, 1, 0
  {
    match v
    case Arr(es) => ElementsOrderly(fmt, es, 0, Cons(CLOSE_ARRAY, rest));
    case Obj(es) => MembersOrderly(fmt, es, 0, Cons(CLOSE_OBJECT, rest));
    case _ => ScalarProper(fmt, v);
  }

  lemma {:induction false} ElementsOrderly(fmt: DoubleText, es: seq<Entry>, k: nat, rest: Lexemes)
    requires k <= |es| && DoubleFree(Arr(es)) && Orderly(Bare(rest)) && Closed(Bare(rest))
    ensures var p := Bare(ElementTokens(fmt, es, k, rest));
            Orderly(p) && (k > 0 ==> Closed(p))
    decreases es, 0, |es| - k
  {
    if k < |es| {
      assert es[k].value < es[k];
      ElementsOrderly(fmt, es, k + 1, rest);
      TokensOrderly(fmt, es[k].value, ElementTokens(fmt, es, k + 1, rest));
    }
  }

  lemma NameOrderly(key: Key, value: Lexemes)
    requires Orderly(Bare(value))
    ensures Orderly(Bare(Cons(Lexeme(StringToken, NameText(key)), Cons(COLON, value))))
  {
    assert Orderly(Bare(Cons(COLON, value)));
  }

  lemma {:induction false} MembersOrderly(fmt: DoubleText, es: seq<Entry>, k: nat, rest: Lexemes)
    requires k <= |es| && DoubleFree(Obj(es)) && Orderly(Bare(rest)) && Closed(Bare(rest))
    ensures var p := Bare(MemberTokens(fmt, es, k, rest));
            Orderly(p) && (k > 0 ==> Closed(p))
    decreases es, 0, |es| - k
  {
    if k < |es| {
      assert es[k].value < es[k];
      MembersOrderly(fmt, es, k + 1, rest);
      TokensOrderly(fmt, es[k].value, MemberTokens(fmt, es, k + 1, rest));
      NameOrderly(es[k].key, Tokens(fmt, es[k].value, MemberTokens(fmt, es, k + 1, rest)));
    }
  }
}
