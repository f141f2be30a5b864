/**
 The pretty-printed text holds the tokens of the compact text, so it reads back the same.
 */
module JsonLayout {
  import opened JsonValue
  import opened JsonToken
  import opened JsonGrammar
  import opened JsonCanonical
  import opened JsonLexeme
  import opened JsonSpelling
  import opened JsonFastWriter
  import opened JsonRoundTrip
  import opened JsonStyledWriter

  /** `p` is the tokens of `tokens`, spaced out lawfully. */
  ghost predicate Spaced(p: Pieces, tokens: Lexemes) {
    Orderly(p) && Strip(p) == tokens
  }

  lemma BreakSpaced(style: Style, indent: string, indented: bool, rest: Pieces)
    requires AllSpace(style.indentation) && AllSpace(indent) && Orderly(rest)
    ensures var p := Break(style, indent, indented, rest);
            Spaced(p, Strip(rest)) && (Closed(rest) ==> Closed(p))
  {
    assert ("\n" + indent)[0] == '\n';
  }

  lemma PadSpaced(style: Style, rest: Pieces)
    requires Orderly(rest)
    ensures var p := Pad(style, rest);
            Spaced(p, Strip(rest)) && (Closed(rest) ==> Closed(p))
  {
  }

  lemma NameSpaced(key: Key, colon: ColonSymbol, value: Pieces)
    requires Orderly(value)
    ensures Spaced(Lexed(Lexeme(StringToken, NameText(key)), Colon(colon, value)),
                   Cons(Lexeme(StringToken, NameText(key)), Cons(COLON, Strip(value))))
  {
    var after := Space(" ", value);
    assert Spaced(after, Strip(value));
    assert Spaced(Lexed(COLON, value), Cons(COLON, Strip(value)));
    assert Spaced(Lexed(COLON, after), Cons(COLON, Strip(value)));
    assert Spaced(Colon(colon, value), Cons(COLON, Strip(value)));
  }

  /** The layout of a value holds its tokens. */
  lemma {:induction false} LayoutSpaced(style: Style, v: Value, indent: string, indented: bool, rest: Pieces)
    requires DoubleFree(v) && AllSpace(style.indentation) && AllSpace(indent) && Orderly(rest) && Closed(rest)
    ensures Spaced(Layout(style, v, indent, indented, rest), Tokens(style.fmt, v, Strip(rest)))
    decreases v, 2, 0
  {
    match v
    case Arr(es) => ArraySpaced(style, es, indent, indented, rest);
    case Obj(es) => ObjectSpaced(style, es, indent, indented, rest);
    case _ => ScalarProper(style.fmt, v);
  }

  lemma {:induction false} ArraySpaced(style: Style, es: seq<Entry>, indent: string, indented: bool, rest: Pieces)
    requires DoubleFree(Arr(es)) && AllSpace(style.indentation) && AllSpace(indent) && Orderly(rest) && Closed(rest)
    ensures Spaced(Layout(style, Arr(es), indent, indented, rest), Tokens(style.fmt, Arr(es), Strip(rest)))
    decreases es, 1, 0
  {
    var close := Lexed(CLOSE_ARRAY, rest);
    if es == [] {
      assert Spaced(close, Strip(close));
    } else if MultiLine(style, es) {
      var broken, inner := Break(style, indent, false, close), indent + style.indentation;
      BreakSpaced(style, indent, false, close);
      ElementsSpaced(style, es, 0, inner, broken);
      BreakSpaced(style, indent, indented, Lexed(OPEN_ARRAY, LayoutElements(style, es, 0, inner, broken)));
    } else {
      PadSpaced(style, close);
      LineSpaced(style, es, 0, Pad(style, close));
      PadSpaced(style, LayoutLine(style, es, 0, Pad(style, close)));
    }
  }

  lemma {:induction false} ObjectSpaced(style: Style, es: seq<Entry>, indent: string, indented: bool, rest: Pieces)
    requires DoubleFree(Obj(es)) && AllSpace(style.indentation) && AllSpace(indent) && Orderly(rest) && Closed(rest)
    ensures Spaced(Layout(style, Obj(es), indent, indented, rest), Tokens(style.fmt, Obj(es), Strip(rest)))
    decreases es, 1, 0
  {
    var close := Lexed(CLOSE_OBJECT, rest);
    if es == [] {
      assert Spaced(close, Strip(close));
    } else {
      var broken, inner := Break(style, indent, false, close), indent + style.indentation;
      BreakSpaced(style, indent, false, close);
      MembersSpaced(style, es, 0, inner, broken);
      BreakSpaced(style, indent, indented, Lexed(OPEN_OBJECT, LayoutMembers(style, es, 0, inner, broken)));
    }
  }

  lemma CommaSpaced(more: bool, rest: Pieces)
    requires Orderly(rest) && (more || Closed(rest))
    ensures Spaced(CommaIf(more, rest), if more then Cons(COMMA, Strip(rest)) else Strip(rest))
    ensures Closed(CommaIf(more, rest))
  {
  }

  lemma {:induction false} ElementsSpaced(style: Style, es: seq<Entry>, k: nat, indent: string, rest: Pieces)
    requires k <= |es| && DoubleFree(Arr(es)) && AllSpace(style.indentation) && AllSpace(indent)
    requires Orderly(rest) && Closed(rest)
    ensures var p := LayoutElements(style, es, k, indent, rest);
            Orderly(p) && Comma(if k < |es| then k else 0, Strip(p)) == ElementTokens(style.fmt, es, k, Strip(rest))
    decreases es, 0, |es| - k
  {
    hide Layout, Break, Colon, AllSpace;
    if k < |es| {
      assert es[k].value < es[k];
      var behind := LayoutElements(style, es, k + 1, indent, rest);
      ElementsSpaced(style, es, k + 1, indent, rest);
      CommaSpaced(k + 1 < |es|, behind);
      LayoutSpaced(style, es[k].value, indent, true, CommaIf(k + 1 < |es|, behind));
      BreakSpaced(style, indent, false, Layout(style, es[k].value, indent, true, CommaIf(k + 1 < |es|, behind)));
    }
  }

  lemma {:induction false} LineSpaced(style: Style, es: seq<Entry>, k: nat, rest: Pieces)
    requires k <= |es| && DoubleFree(Arr(es)) && AllSpace(style.indentation) && Orderly(rest) && Closed(rest)
    ensures Spaced(LayoutLine(style, es, k, rest), ElementTokens(style.fmt, es, k, Strip(rest)))
    ensures k > 0 ==> Closed(LayoutLine(style, es, k, rest))
    decreases es, 0, |es| - k
  {
    if k < |es| {
      assert es[k].value < es[k];
      LineSpaced(style, es, k + 1, rest);
      LayoutSpaced(style, es[k].value, "", true, LayoutLine(style, es, k + 1, rest));
      PadSpaced(style, Layout(style, es[k].value, "", true, LayoutLine(style, es, k + 1, rest)));
    }
  }

  lemma {:induction false} MembersSpaced(style: Style, es: seq<Entry>, k: nat, indent: string, rest: Pieces)
    requires k <= |es| && DoubleFree(Obj(es)) && AllSpace(style.indentation) && AllSpace(indent)
    requires Orderly(rest) && Closed(rest)
    ensures var p := LayoutMembers(style, es, k, indent, rest);
            Orderly(p) && Comma(if k < |es| then k else 0, Strip(p)) == MemberTokens(style.fmt, es, k, Strip(rest))
    decreases es, 0, |es| - k
  {
    hide Layout, Break, Colon, AllSpace;
    if k < |es| {
      assert es[k].value < es[k];
      var behind := LayoutMembers(style, es, k + 1, indent, rest);
      MembersSpaced(style, es, k + 1, indent, rest);
      CommaSpaced(k + 1 < |es|, behind);
      var value := Layout(style, es[k].value, indent, false, CommaIf(k + 1 < |es|, behind));
      LayoutSpaced(style, es[k].value, indent, false, CommaIf(k + 1 < |es|, behind));
      NameSpaced(es[k].key, style.colon, value);
      BreakSpaced(style, indent, false, Lexed(Lexeme(StringToken, NameText(es[k].key)), Colon(style.colon, value)));
    }
  }

  /** The pretty-printed text of a tree. */
  function Pretty(style: Style, v: Value): string {
    Render(Layout(style, Normal(v), "", true, End))
  }

  /**
   For every double-free tree, white-space indentation, comment style and colon symbol, the
   pretty-printed text lexes to the token sequence of the compact text.
   */
  lemma PrettyLexes(style: Style, v: Value)
    requires Valid(v) && DoubleFree(v) && AllSpace(style.indentation)
    ensures Lex(Pretty(style, v), 0) == Lex(Compact(style.fmt, v), 0) == Tokens(style.fmt, Normal(v), Nil)
  {
    NormalDoubleFree(v);
    LayoutSpaced(style, Normal(v), "", true, End);
    RenderLexes(Layout(style, Normal(v), "", true, End));
    CompactLexes(style.fmt, v, "");
    assert Compact(style.fmt, v) + "" == Compact(style.fmt, v);
  }

  /** So it parses to the same tree, under the same exact depth condition. */
  lemma PrettyRoundTrip(scan: ScanDouble, style: Style, v: Value, root: Value)
    requires Valid(v) && DoubleFree(v) && AllSpace(style.indentation)
    ensures var r := Parse(scan, Pretty(style, v), root);
            if Height(Normal(v)) <= STACK_LIMIT then r.Ok? && r.val == Normal(v) else r == Threw(StackLimitExceeded)
  {
    NormalIsCanonical(v);
    NormalDoubleFree(v);
    PrettyLexes(style, v);
    ParseLexed(scan, style.fmt, Pretty(style, v), root, Normal(v));
  }
}
