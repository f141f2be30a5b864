/**
 How the pretty-printed text is broken into lines: where an array stays on one line, and how
 far each line is indented.
 */
module JsonLines {
  import opened JsonValue
  import opened JsonToken
  import opened JsonCanonical
  import opened JsonLexeme
  import opened JsonSpelling
  import opened JsonFastWriter
  import opened JsonStyledWriter

  /** The texts of the elements from number `k` on, with a separator between them. */
  function Joined(fmt: DoubleText, es: seq<Entry>, k: nat, separator: string): string
    requires k < |es|
    decreases |es| - k
  {
    PushedText(fmt, es[k].value) + if k + 1 < |es| then separator + Joined(fmt, es, k + 1, separator) else ""
  }

  /** An array on one line. */
  function OneLine(fmt: DoubleText, es: seq<Entry>): string
    requires es != []
  {
    "[ " + Joined(fmt, es, 0, ", ") + " ]"
  }

  /** The length of the texts of the first `n` elements. */
  function TextLength(fmt: DoubleText, es: seq<Entry>, n: nat): nat
    requires n <= |es|
  {
    if n == 0 then 0 else TextLength(fmt, es, n - 1) + |PushedText(fmt, es[n-1].value)|
  }

  lemma {:induction false} JoinedLength(fmt: DoubleText, es: seq<Entry>, k: nat)
    requires k < |es|
    ensures |Joined(fmt, es, k, ", ")| == TextLength(fmt, es, |es|) - TextLength(fmt, es, k) + 2 * (|es| - k - 1)
    decreases |es| - k
  {
    hide PushedText;
    if k + 1 < |es| {
      JoinedLength(fmt, es, k + 1);
    }
  }

  lemma AddWrapped(a: nat, b: nat)
    ensures (a % ARRAY_INDEX_MODULUS + b) % ARRAY_INDEX_MODULUS == (a + b) % ARRAY_INDEX_MODULUS
  {
  }

  lemma {:induction false} LineLengthSum(fmt: DoubleText, es: seq<Entry>, n: nat)
    requires n <= |es| && es != []
    ensures LineLength(fmt, es, n) == (4 + (|es| - 1) * 2 + TextLength(fmt, es, n)) % ARRAY_INDEX_MODULUS
  {
    hide PushedText;
    if n > 0 {
      LineLengthSum(fmt, es, n - 1);
      AddWrapped(4 + (|es| - 1) * 2 + TextLength(fmt, es, n - 1), |PushedText(fmt, es[n-1].value)|);
    }
  }

  /**
   An array is spread over several lines exactly if comments are kept, it has a container with
   children, or on one line it would reach the right margin, or would if its elements were
   empty: lengths and sizes are 32 bits wide.
   */
  lemma MultiLineExactly(style: Style, es: seq<Entry>)
    requires es != []
    ensures MultiLine(style, es) <==>
              || style.comments.AllComments?
              || (exists i :: 0 <= i < |es| && (es[i].value.Arr? || es[i].value.Obj?) && es[i].value.entries != [])
              || |es| * 3 % 0x1_0000_0000 >= 74
              || |OneLine(style.fmt, es)| % 0x1_0000_0000 >= 74
  {
    JoinedLength(style.fmt, es, 0);
    LineLengthSum(style.fmt, es, |es|);
    hide LineLength, Joined, PushedText;
  }

  /** What stands between the elements of such a line. */
  function Separator(style: Style): string {
    if style.indentation == "" then "," else ", "
  }

  lemma Prefixed(text: string, rest: string)
    ensures "" + text + rest == text + rest
    ensures "," + ("" + (text + rest)) == "," + text + rest
    ensures "," + (" " + (text + rest)) == ", " + text + rest
  {
  }

  lemma PadRendered(style: Style, rest: Pieces)
    ensures Render(Pad(style, rest)) == (if style.indentation == "" then "" else " ") + Render(rest)
  {
    assert "" + Render(rest) == Render(rest);
  }

  lemma ElementRendered(style: Style, es: seq<Entry>, k: nat, rest: Pieces)
    requires k < |es| && Pushed(es[k].value)
    ensures Render(LayoutLine(style, es, k, rest)) ==
              (if k > 0 then Separator(style) else "") + PushedText(style.fmt, es[k].value) + Render(LayoutLine(style, es, k + 1, rest))
  {
    hide PushedText;
    var behind := LayoutLine(style, es, k + 1, rest);
    PushedLayout(style, es[k].value, "", true, behind);
    assert es[k].value < es[k];
    var element := Layout(style, es[k].value, "", true, behind);
    assert LayoutLine(style, es, k, rest) == if k > 0 then Lexed(COMMA, Pad(style, element)) else element;
    PadRendered(style, element);
    assert Render(Lexed(COMMA, Pad(style, element))) == "," + Render(Pad(style, element));
    hide Layout, LayoutLine, Render, Pad;
    Prefixed(PushedText(style.fmt, es[k].value), Render(behind));
  }

  lemma Regroup(a: string, b: string, c: string, d: string, e: string)
    ensures a + b + (c + d + e) == a + (b + (c + d)) + e
    ensures a + b + e == a + (b + "") + e
  {
  }

  lemma {:induction false} LineRendered(style: Style, es: seq<Entry>, k: nat, rest: Pieces)
    requires k < |es| && !HasContainer(es)
    ensures Render(LayoutLine(style, es, k, rest)) ==
              (if k > 0 then Separator(style) else "") + Joined(style.fmt, es, k, Separator(style)) + Render(rest)
    decreases |es| - k
  {
    ElementRendered(style, es, k, rest);
    assert k + 1 == |es| ==> LayoutLine(style, es, k + 1, rest) == rest;
    hide LayoutLine, Render, PushedText, Separator;
    var before, text, separator := if k > 0 then Separator(style) else "", PushedText(style.fmt, es[k].value), Separator(style);
    if k + 1 < |es| {
      LineRendered(style, es, k + 1, rest);
      Regroup(before, text, separator, Joined(style.fmt, es, k + 1, separator), Render(rest));
    } else {
      Regroup(before, text, "", "", Render(rest));
    }
  }

  lemma NoContainer(style: Style, es: seq<Entry>)
    requires es != [] && !MultiLine(style, es)
    ensures !HasContainer(es)
  {
  }

  lemma Bracketed(joined: string, pad: string, rest: string)
    ensures "[" + (pad + ("" + joined + (pad + ("]" + rest)))) == "[" + pad + joined + pad + "]" + rest
  {
  }

  lemma OneLineIs(style: Style, es: seq<Entry>)
    requires es != []
    ensures var pad := if style.indentation == "" then "" else " ";
            "[" + pad + Joined(style.fmt, es, 0, Separator(style)) + pad + "]" ==
              if style.indentation == "" then "[" + Joined(style.fmt, es, 0, ",") + "]" else OneLine(style.fmt, es)
  {
    hide Joined;
  }

  /** Otherwise it is printed on one line, without spaces where there is no indentation. */
  lemma OneLineRendered(style: Style, es: seq<Entry>, indent: string, indented: bool, rest: Pieces)
    requires es != [] && !MultiLine(style, es)
    ensures Render(Layout(style, Arr(es), indent, indented, rest)) ==
              (if style.indentation == "" then "[" + Joined(style.fmt, es, 0, ",") + "]" else OneLine(style.fmt, es)) + Render(rest)
  {
    var close := Lexed(CLOSE_ARRAY, rest);
    var line := LayoutLine(style, es, 0, Pad(style, close));
    NoContainer(style, es);
    assert Layout(style, Arr(es), indent, indented, rest) == Lexed(OPEN_ARRAY, Pad(style, line));
    assert Render(Lexed(OPEN_ARRAY, Pad(style, line))) == "[" + Render(Pad(style, line)) && Render(close) == "]" + Render(rest);
    LineRendered(style, es, 0, Pad(style, close));
    PadRendered(style, close);
    PadRendered(style, line);
    hide Layout, LayoutLine, Render, Joined, OneLine, Pad, Separator;
    var joined, pad := Joined(style.fmt, es, 0, Separator(style)), if style.indentation == "" then "" else " ";
    Bracketed(joined, pad, Render(rest));
    OneLineIs(style, es);
  }

  function Copies(s: string, n: nat): string {
    if n == 0 then "" else Copies(s, n - 1) + s
  }

  predicate Opens(k: TokenType) {
    k == ArrayBegin || k == ObjectBegin
  }

  predicate Closes(k: TokenType) {
    k == ArrayEnd || k == ObjectEnd
  }

  /** The brackets that are open, and for each whether a line break follows it. */
  datatype Open = Outside | Inside(lines: bool, outer: Open) {
    function Depth(): nat {
      if Outside? then 0 else 1 + outer.Depth()
    }
  }

  predicate Breaks(p: Pieces) {
    p.Space? && p.text != " "
  }

  predicate CloseNext(p: Pieces) {
    p.Lexed? && Closes(p.lexeme.kind)
  }

  /** With indentation, an opening bracket with a line break behind it. */
  predicate OpensLines(style: Style, p: Pieces) {
    style.indentation != "" && p.Lexed? && Opens(p.lexeme.kind) && Breaks(p.rest)
  }

  /**
   With indentation there is space in front of every closing bracket but that of an empty
   container, and a line break in front of every bracket with one behind it.
   */
  predicate Spread(style: Style, p: Pieces) {
    style.indentation != "" ==> !CloseNext(p) && !OpensLines(style, p)
  }

  /**
   Every line break is followed by the indentation once for each bracket that is open there,
   but for one that the line begins by closing.  With indentation there is a line break behind
   each comma and in front of the closing bracket if there is one behind the opening bracket,
   and a space otherwise.  There is one behind that of an object with members; and a bracket
   with one behind it, unless it is the first of all, has one in front of it.
   */
  predicate Indented(style: Style, open: Open, p: Pieces)
    decreases p
  {
    match p
    case End => true
    case Lexed(l, r) =>
      if Opens(l.kind) then
        && Indented(style, Inside(Breaks(r), open), r) && !OpensLines(style, r)
        && (l.kind == ObjectBegin && style.indentation != "" ==> CloseNext(r) || Breaks(r))
      else if Closes(l.kind) then open.Inside? && Spread(style, r) && Indented(style, open.outer, r)
      else
        && Spread(style, r) && Indented(style, open, r)
        && (l.kind == ArraySeparator && style.indentation != "" ==> open.Inside? && r.Space? && (Breaks(r) <==> open.lines))
    case Space(s, r) =>
      && Indented(style, open, r)
      && (s == " " || s == "\n" + Copies(style.indentation, if CloseNext(r) && open.Inside? then open.outer.Depth() else open.Depth()))
      && (CloseNext(r) ==> open.Inside? && (Breaks(p) <==> open.lines))
      && (OpensLines(style, r) ==> Breaks(p))
  }

  lemma BreakIndented(style: Style, open: Open, indented: bool, rest: Pieces)
    requires rest.Lexed? && !CloseNext(rest) && Indented(style, open, rest)
    ensures var p := Break(style, Copies(style.indentation, open.Depth()), indented, rest);
            Indented(style, open, p) && !CloseNext(p) && (indented ==> p == rest)
    ensures !indented ==>
              var p := Break(style, Copies(style.indentation, open.Depth()), indented, rest);
              Spread(style, p) && (Breaks(p) <==> style.indentation != "")
  {
    assert ("\n" + Copies(style.indentation, open.Depth()))[0] == '\n';
  }

  /** The closing bracket of a container with children. */
  lemma CloseIndented(style: Style, open: Open, close: Lexeme, rest: Pieces)
    requires Closes(close.kind) && Indented(style, open, rest) && Spread(style, rest)
    ensures var p := Break(style, Copies(style.indentation, open.Depth()), false, Lexed(close, rest));
            Indented(style, Inside(style.indentation != "", open), p) && Spread(style, p)
    ensures var p := Pad(style, Lexed(close, rest));
            Indented(style, Inside(false, open), p) && Spread(style, p)
  {
    assert ("\n" + Copies(style.indentation, open.Depth()))[0] == '\n';
    assert forall lines :: Indented(style, Inside(lines, open), Lexed(close, rest));
  }

  lemma ColonIndented(style: Style, open: Open, rest: Pieces)
    requires Indented(style, open, rest) && !CloseNext(rest) && !OpensLines(style, rest)
    ensures Indented(style, open, Colon(style.colon, rest)) && !CloseNext(Colon(style.colon, rest)) && !OpensLines(style, Colon(style.colon, rest))
  {
    var after := Space(" ", rest);
    assert Indented(style, open, after);
    assert Indented(style, open, Lexed(COLON, rest)) && Indented(style, open, Lexed(COLON, after));
  }

  lemma CommaIndented(style: Style, open: Open, more: bool, rest: Pieces)
    requires Indented(style, open, rest) && Spread(style, rest)
    requires more && style.indentation != "" ==> open.Inside? && rest.Space? && (Breaks(rest) <==> open.lines)
    ensures Indented(style, open, CommaIf(more, rest)) && Spread(style, CommaIf(more, rest))
  {
  }

  lemma ScalarKind(fmt: DoubleText, v: Value)
    requires !v.Arr? && !v.Obj?
    ensures var kind := ScalarLexeme(fmt, v).kind;
            !Opens(kind) && !Closes(kind) && kind != ArraySeparator
  {
  }

  lemma PushedIndented(style: Style, v: Value, open: Open, indent: string, indented: bool, rest: Pieces)
    requires Pushed(v) && Indented(style, open, rest) && Spread(style, rest)
    ensures var p := Layout(style, v, indent, indented, rest);
            Indented(style, open, p) && p.Lexed? && !CloseNext(p) && !OpensLines(style, p)
  {
    match v
    case Arr(_) => assert Indented(style, Inside(false, open), Lexed(CLOSE_ARRAY, rest));
    case Obj(_) => assert Indented(style, Inside(false, open), Lexed(CLOSE_OBJECT, rest));
    case _ =>
      ScalarKind(style.fmt, v);
      hide ScalarLexeme;
  }

  /** The layout of a value in front of something indented. */
  lemma {:induction false} LayoutIndented(style: Style, v: Value, open: Open, indented: bool, rest: Pieces)
    requires Indented(style, open, rest) && Spread(style, rest)
    ensures var p := Layout(style, v, Copies(style.indentation, open.Depth()), indented, rest);
            Indented(style, open, p) && !CloseNext(p) && (if indented then p.Lexed? else !OpensLines(style, p))
    decreases v, 2, 0
  {
    if Pushed(v) {
      PushedIndented(style, v, open, Copies(style.indentation, open.Depth()), indented, rest);
    } else if v.Arr? {
      ArrayIndented(style, v.entries, open, indented, rest);
    } else {
      ObjectIndented(style, v.entries, open, indented, rest);
    }
  }

  lemma PadIndented(style: Style, open: Open, rest: Pieces)
    requires Indented(style, open, rest) && !CloseNext(rest) && !OpensLines(style, rest)
    ensures Indented(style, open, Pad(style, rest)) && !CloseNext(Pad(style, rest)) && !OpensLines(style, Pad(style, rest))
    ensures rest.Lexed? ==> !Breaks(Pad(style, rest))
  {
  }

  lemma {:induction false} LineIndented(style: Style, es: seq<Entry>, k: nat, open: Open, rest: Pieces)
    requires k <= |es| && Indented(style, open, rest) && Spread(style, rest) && !HasContainer(es) && open.Inside? && !open.lines
    ensures var p := LayoutLine(style, es, k, rest);
            Indented(style, open, p) && Spread(style, p) && (k < |es| ==> p.Lexed? && !CloseNext(p) && !OpensLines(style, p))
    decreases es, 0, |es| - k
  {
    if k < |es| {
      assert Pushed(es[k].value) && es[k].value < es[k];
      var behind := LayoutLine(style, es, k + 1, rest);
      LineIndented(style, es, k + 1, open, rest);
      PushedIndented(style, es[k].value, open, "", true, behind);
      PadIndented(style, open, Layout(style, es[k].value, "", true, behind));
      hide Layout;
    }
  }

  lemma {:induction false} ArrayIndented(style: Style, es: seq<Entry>, open: Open, indented: bool, rest: Pieces)
    requires es != [] && Indented(style, open, rest) && Spread(style, rest)
    ensures var p := Layout(style, Arr(es), Copies(style.indentation, open.Depth()), indented, rest);
            Indented(style, open, p) && !CloseNext(p) && (if indented then p.Lexed? else !OpensLines(style, p))
    decreases es, 1, 0
  {
    hide MultiLine, LayoutElements, LayoutLine;
    var close, inner := Lexed(CLOSE_ARRAY, rest), Inside(style.indentation != "", open);
    CloseIndented(style, open, CLOSE_ARRAY, rest);
    if MultiLine(style, es) {
      var broken := Break(style, Copies(style.indentation, open.Depth()), false, close);
      var elements := LayoutElements(style, es, 0, Copies(style.indentation, inner.Depth()), broken);
      ElementsIndented(style, es, 0, inner, broken);
      assert Indented(style, open, Lexed(OPEN_ARRAY, elements));
      BreakIndented(style, open, indented, Lexed(OPEN_ARRAY, elements));
    } else {
      var line := LayoutLine(style, es, 0, Pad(style, close));
      NoContainer(style, es);
      LineIndented(style, es, 0, Inside(false, open), Pad(style, close));
      PadIndented(style, Inside(false, open), line);
      assert Indented(style, open, Lexed(OPEN_ARRAY, Pad(style, line)));
    }
  }

  lemma {:induction false} ObjectIndented(style: Style, es: seq<Entry>, open: Open, indented: bool, rest: Pieces)
    requires es != [] && Indented(style, open, rest) && Spread(style, rest)
    ensures var p := Layout(style, Obj(es), Copies(style.indentation, open.Depth()), indented, rest);
            Indented(style, open, p) && !CloseNext(p) && (if indented then p.Lexed? else !OpensLines(style, p))
    decreases es, 1, 0
  {
    hide LayoutMembers;
    var inner := Inside(style.indentation != "", open);
    var broken := Break(style, Copies(style.indentation, open.Depth()), false, Lexed(CLOSE_OBJECT, rest));
    var members := LayoutMembers(style, es, 0, Copies(style.indentation, inner.Depth()), broken);
    CloseIndented(style, open, CLOSE_OBJECT, rest);
    MembersIndented(style, es, 0, inner, broken);
    assert Indented(style, open, Lexed(OPEN_OBJECT, members));
    BreakIndented(style, open, indented, Lexed(OPEN_OBJECT, members));
  }

  lemma {:induction false} ElementsIndented(style: Style, es: seq<Entry>, k: nat, open: Open, rest: Pieces)
    requires k <= |es| && Indented(style, open, rest) && Spread(style, rest) && open.Inside? && open.lines == (style.indentation != "")
    ensures var p := LayoutElements(style, es, k, Copies(style.indentation, open.Depth()), rest);
            Indented(style, open, p) && Spread(style, p) && (k < |es| ==> (Breaks(p) <==> open.lines))
    decreases es, 0, |es| - k
  {
    hide Layout;
    if k < |es| {
      assert es[k].value < es[k];
      var behind := LayoutElements(style, es, k + 1, Copies(style.indentation, open.Depth()), rest);
      ElementsIndented(style, es, k + 1, open, rest);
      CommaIndented(style, open, k + 1 < |es|, behind);
      LayoutIndented(style, es[k].value, open, true, CommaIf(k + 1 < |es|, behind));
      hide CommaIf, Indented;
      BreakIndented(style, open, false, Layout(style, es[k].value, Copies(style.indentation, open.Depth()), true, CommaIf(k + 1 < |es|, behind)));
    }
  }

  lemma MemberIndented(style: Style, open: Open, name: string, value: Pieces)
    requires Indented(style, open, value) && !CloseNext(value) && !OpensLines(style, value)
    ensures var p := Break(style, Copies(style.indentation, open.Depth()), false, Lexed(Lexeme(StringToken, name), Colon(style.colon, value)));
            Indented(style, open, p) && Spread(style, p) && (Breaks(p) <==> style.indentation != "")
  {
    hide Copies;
    ColonIndented(style, open, value);
    var member := Lexed(Lexeme(StringToken, name), Colon(style.colon, value));
    hide Colon;
    assert Indented(style, open, member);
    BreakIndented(style, open, false, member);
  }

  lemma FirstMember(style: Style, es: seq<Entry>, k: nat, indent: string, rest: Pieces)
    requires k <= |es|
    ensures LayoutMembers(style, es, k, indent, rest) ==
              if k == |es| then rest
              else
                var value := Layout(style, es[k].value, indent, false, CommaIf(k + 1 < |es|, LayoutMembers(style, es, k + 1, indent, rest)));
                Break(style, indent, false, Lexed(Lexeme(StringToken, NameText(es[k].key)), Colon(style.colon, value)))
  {
  }

  lemma {:induction false} MembersIndented(style: Style, es: seq<Entry>, k: nat, open: Open, rest: Pieces)
    requires k <= |es| && Indented(style, open, rest) && Spread(style, rest) && open.Inside? && open.lines == (style.indentation != "")
    ensures var p := LayoutMembers(style, es, k, Copies(style.indentation, open.Depth()), rest);
            Indented(style, open, p) && Spread(style, p) && (k < |es| ==> (Breaks(p) <==> open.lines))
    decreases es, 0, |es| - k
  {
    hide Layout, LayoutMembers, Copies, NameText;
    var indent := Copies(style.indentation, open.Depth());
    FirstMember(style, es, k, indent, rest);
    if k < |es| {
      assert es[k].value < es[k];
      var behind := LayoutMembers(style, es, k + 1, indent, rest);
      MembersIndented(style, es, k + 1, open, rest);
      CommaIndented(style, open, k + 1 < |es|, behind);
      hide CommaIf, Indented, Colon, Break, Spread;
      LayoutIndented(style, es[k].value, open, false, CommaIf(k + 1 < |es|, behind));
      hide Breaks, CloseNext;
      MemberIndented(style, open, NameText(es[k].key), Layout(style, es[k].value, indent, false, CommaIf(k + 1 < |es|, behind)));
    }
  }

  /** So is the whole text. */
  lemma PrettyIndented(style: Style, v: Value)
    ensures Indented(style, Outside, Layout(style, Normal(v), "", true, End))
  {
    LayoutIndented(style, Normal(v), Outside, true, End);
  }
}
