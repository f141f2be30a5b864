/**
 A canonical tree is determined by its tokens, however deeply it is nested.
 */
module JsonInjective {
  import opened JsonValue
  import Strings = JsonString
  import opened JsonToken
  import opened JsonGrammar
  import opened JsonCanonical
  import opened JsonLexeme
  import opened Options

  lemma ScalarInjective(fmt: DoubleText, v: Value, w: Value)
    requires Canonical(v) && DoubleFree(v) && !v.Arr? && !v.Obj?
    requires Canonical(w) && DoubleFree(w) && !w.Arr? && !w.Obj?
    requires ScalarLexeme(fmt, v) == ScalarLexeme(fmt, w)
    ensures v == w
  {
    hide Canonical, DecodeNumber, Strings.DecodeQuoted;
    ScalarDecodes(_ => None, fmt, v);
    ScalarDecodes(_ => None, fmt, w);
  }

  /** A value begins with a token that neither closes nor separates. */
  lemma FirstToken(fmt: DoubleText, v: Value, rest: Lexemes)
    ensures Tokens(fmt, v, rest).head.kind !in {ArrayEnd, ObjectEnd, ArraySeparator}
    ensures v.Arr? <==> Tokens(fmt, v, rest).head.kind == ArrayBegin
    ensures v.Obj? <==> Tokens(fmt, v, rest).head.kind == ObjectBegin
  {
  }

  /** The tokens of a value and what follows them determine both. */
  lemma {:induction false} TokensInjective(fmt: DoubleText, v: Value, w: Value, r: Lexemes, q: Lexemes)
    requires Canonical(v) && DoubleFree(v) && Canonical(w) && DoubleFree(w)
    requires Tokens(fmt, v, r) == Tokens(fmt, w, q)
    ensures v == w && r == q
    decreases v, 1, 0
  {
    hide Canonical, DoubleFree, ElementTokens, MemberTokens, ScalarLexeme, Elements, Members;
    FirstToken(fmt, v, r);
    FirstToken(fmt, w, q);
    Children(v);
    Children(w);
    match v
    case Arr(es) =>
      ElementsInjective(fmt, es, w.entries, 0, r, q);
    case Obj(es) =>
      MembersInjective(fmt, es, w.entries, 0, r, q);
    case _ =>
      ScalarInjective(fmt, v, w);
  }

  lemma {:induction false} ElementsInjective(fmt: DoubleText, es: seq<Entry>, fs: seq<Entry>, k: nat, r: Lexemes, q: Lexemes)
    requires Elements(es) && Elements(fs) && k <= |es| && k <= |fs| && es[..k] == fs[..k]
    requires ElementTokens(fmt, es, k, Cons(CLOSE_ARRAY, r)) == ElementTokens(fmt, fs, k, Cons(CLOSE_ARRAY, q))
    ensures es == fs && r == q
    decreases es, 0, |es| - k
  {
    hide Canonical, DoubleFree, Tokens;
    if k < |es| {
      FirstToken(fmt, es[k].value, ElementTokens(fmt, es, k + 1, Cons(CLOSE_ARRAY, r)));
    }
    if k < |fs| {
      FirstToken(fmt, fs[k].value, ElementTokens(fmt, fs, k + 1, Cons(CLOSE_ARRAY, q)));
    }
    if k < |es| && k < |fs| {
      assert es[k].value < es[k];
      TokensInjective(fmt, es[k].value, fs[k].value,
        ElementTokens(fmt, es, k + 1, Cons(CLOSE_ARRAY, r)), ElementTokens(fmt, fs, k + 1, Cons(CLOSE_ARRAY, q)));
      assert es[..k+1] == es[..k] + [es[k]] && fs[..k+1] == fs[..k] + [fs[k]];
      ElementsInjective(fmt, es, fs, k + 1, r, q);
    }
  }

  lemma {:induction false} MembersInjective(fmt: DoubleText, es: seq<Entry>, fs: seq<Entry>, k: nat, r: Lexemes, q: Lexemes)
    requires Members(es) && Members(fs) && k <= |es| && k <= |fs| && es[..k] == fs[..k]
    requires MemberTokens(fmt, es, k, Cons(CLOSE_OBJECT, r)) == MemberTokens(fmt, fs, k, Cons(CLOSE_OBJECT, q))
    ensures es == fs && r == q
    decreases es, 0, |es| - k
  {
    hide Canonical, DoubleFree, Tokens, Strings.Quote, Strings.DecodeQuoted;
    if k < |es| && k < |fs| {
      assert es[k].value < es[k];
      Strings.QuoteRoundTrip(es[k].key.s);
      Strings.QuoteRoundTrip(fs[k].key.s);
      TokensInjective(fmt, es[k].value, fs[k].value,
        MemberTokens(fmt, es, k + 1, Cons(CLOSE_OBJECT, r)), MemberTokens(fmt, fs, k + 1, Cons(CLOSE_OBJECT, q)));
      assert es[..k+1] == es[..k] + [es[k]] && fs[..k+1] == fs[..k] + [fs[k]];
      MembersInjective(fmt, es, fs, k + 1, r, q);
    }
  }
}
