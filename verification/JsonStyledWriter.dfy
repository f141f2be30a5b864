/**
 `BuiltStyledStreamWriter` on trees without comments: the pretty-printer with its cache of
 child texts, its indentation string and its `indented_` flag, all updated in place.

 `Layout` says what is printed without any of that state.  The writer is proved to print
 exactly the layout, and the layout to hold exactly the tokens of the compact text.
 */
module JsonStyledWriter {
  import opened JsonValue
  import Numbers = JsonNumber
  import Strings = JsonString
  import opened JsonToken
  import opened JsonCanonical
  import opened JsonLexeme
  import opened JsonSpelling
  import opened JsonFastWriter

  datatype CommentStyle = NoComments | AllComments

  /** The colon symbols of `StreamWriterBuilder`. */
  datatype ColonSymbol = Bare | SpaceAfter | SpaceAround

  /** The settings of a writer; `fmt` prints doubles. */
  datatype Style = Style(indentation: string, comments: CommentStyle, colon: ColonSymbol, fmt: DoubleText)

  const RIGHT_MARGIN := 74

  function ColonText(c: ColonSymbol): string {
    match c
    case Bare => ":"
    case SpaceAfter => ": "
    case SpaceAround => " : "
  }

  function Colon(c: ColonSymbol, rest: Pieces): (p: Pieces)
    ensures Render(p) == ColonText(c) + Render(rest)
  {
    match c
    case Bare => Lexed(COLON, rest)
    case SpaceAfter => Lexed(COLON, Space(" ", rest))
    case SpaceAround =>
      var after := Space(" ", rest);
      assert Render(Lexed(COLON, after)) == ":" + (" " + Render(rest));
      assert " " + (":" + (" " + Render(rest))) == " : " + Render(rest);
      Space(" ", Lexed(COLON, after))
  }

  /** `writeIndent` when the line is not indented yet. */
  function Break(style: Style, indent: string, indented: bool, rest: Pieces): Pieces {
    if indented || style.indentation == "" then rest else Space("\n" + indent, rest)
  }

  /** The space inside the brackets and after the commas of a one-line array. */
  function Pad(style: Style, rest: Pieces): Pieces {
    if style.indentation == "" then rest else Space(" ", rest)
  }

  /** Values printed in one piece: scalars and empty containers. */
  predicate Pushed(v: Value) {
    v.Arr? || v.Obj? ==> v.entries == []
  }

  function PushedText(fmt: DoubleText, v: Value): string {
    match v
    case Arr(_) => "[]"
    case Obj(_) => "{}"
    case _ => ScalarLexeme(fmt, v).text
  }

  /** The length of `[ a, b, c ]` counting the first `n` elements, in 32-bit arithmetic. */
  function LineLength(fmt: DoubleText, es: seq<Entry>, n: nat): nat
    requires n <= |es| && es != []
  {
    if n == 0 then (4 + (|es| - 1) * 2) % ARRAY_INDEX_MODULUS
    else (LineLength(fmt, es, n - 1) + |PushedText(fmt, es[n-1].value)|) % ARRAY_INDEX_MODULUS
  }

  predicate HasContainer(es: seq<Entry>) {
    exists i :: 0 <= i < |es| && !Pushed(es[i].value)
  }

  /** Whether a non-empty array is spread over several lines. */
  predicate MultiLine(style: Style, es: seq<Entry>)
    requires es != []
  {
    || style.comments.AllComments?
    || |es| * 3 % ARRAY_INDEX_MODULUS >= RIGHT_MARGIN
    || HasContainer(es)
    || LineLength(style.fmt, es, |es|) >= RIGHT_MARGIN
  }

  /** What is printed for a value in normal form at this indentation, in front of `rest`. */
  function Layout(style: Style, v: Value, indent: string, indented: bool, rest: Pieces): Pieces
    decreases v, 1, 0
  {
    match v
    case Arr(es) =>
      if es == [] then Lexed(OPEN_ARRAY, Lexed(CLOSE_ARRAY, rest))
      else if MultiLine(style, es) then
        Break(style, indent, indented, Lexed(OPEN_ARRAY,
          LayoutElements(style, es, 0, indent + style.indentation,
            Break(style, indent, false, Lexed(CLOSE_ARRAY, rest)))))
      else
        Lexed(OPEN_ARRAY, Pad(style, LayoutLine(style, es, 0, Pad(style, Lexed(CLOSE_ARRAY, rest)))))
    case Obj(es) =>
      if es == [] then Lexed(OPEN_OBJECT, Lexed(CLOSE_OBJECT, rest))
      else
        Break(style, indent, indented, Lexed(OPEN_OBJECT,
          LayoutMembers(style, es, 0, indent + style.indentation,
            Break(style, indent, false, Lexed(CLOSE_OBJECT, rest)))))
    case _ => Lexed(ScalarLexeme(style.fmt, v), rest)
  }

  /** The comma between two children. */
  function CommaIf(more: bool, rest: Pieces): Pieces {
    if more then Lexed(COMMA, rest) else rest
  }

  /** One element a line. */
  function LayoutElements(style: Style, es: seq<Entry>, k: nat, indent: string, rest: Pieces): Pieces
    requires k <= |es|
    decreases es, 0, |es| - k
  {
    if k == |es| then rest
    else
      assert es[k].value < es[k];
      Break(style, indent, false, Layout(style, es[k].value, indent, true,
        CommaIf(k + 1 < |es|, LayoutElements(style, es, k + 1, indent, rest))))
  }

  /** All elements on the current line. */
  function LayoutLine(style: Style, es: seq<Entry>, k: nat, rest: Pieces): Pieces
    requires k <= |es|
    decreases es, 0, |es| - k
  {
    if k == |es| then rest
    else
      assert es[k].value < es[k];
      var element := Layout(style, es[k].value, "", true, LayoutLine(style, es, k + 1, rest));
      if k > 0 then Lexed(COMMA, Pad(style, element)) else element
  }

  /** One member a line; a container value may break the line again after the colon. */
  function LayoutMembers(style: Style, es: seq<Entry>, k: nat, indent: string, rest: Pieces): Pieces
    requires k <= |es|
    decreases es, 0, |es| - k
  {
    if k == |es| then rest
    else
      assert es[k].value < es[k];
      Break(style, indent, false, Lexed(Lexeme(StringToken, NameText(es[k].key)),
        Colon(style.colon, Layout(style, es[k].value, indent, false,
          CommaIf(k + 1 < |es|, LayoutMembers(style, es, k + 1, indent, rest))))))
  }

  /** `indented_` after a value has been printed. */
  predicate IndentedAfter(style: Style, v: Value, indented: bool) {
    indented && (Pushed(v) || (v.Arr? && !MultiLine(style, v.entries)))
  }

  lemma PushedLayout(style: Style, v: Value, indent: string, indented: bool, rest: Pieces)
    requires Pushed(v)
    ensures Render(Layout(style, v, indent, indented, rest)) == PushedText(style.fmt, v) + Render(rest)
  {
    match v
    case Arr(_) => assert "[" + ("]" + Render(rest)) == "[]" + Render(rest);
    case Obj(_) => assert "{" + ("}" + Render(rest)) == "{}" + Render(rest);
    case _ =>
  }

  class StyledWriter {
    const style: Style
    var sout: string
    var childValues: seq<string>
    var indentString: string
    var addChildValues: bool
    var indented: bool

    constructor (style: Style)
      ensures this.style == style && sout == "" && childValues == [] && indentString == "" && !addChildValues && !indented
    {
      this.style := style;
      sout, childValues, indentString, addChildValues, indented := "", [], "", false, false;
    }

    /** With comments enabled the cache of child texts is never used. */
    ghost predicate Valid()
      reads this
    {
      style.comments.AllComments? ==> childValues == []
    }

    /** The output with `rest` still to come behind it. */
    ghost function Followed(rest: Pieces): string
      reads `sout
    {
      sout + Render(rest)
    }

    /** `*sout_ << text`. */
    method Print(text: string, ghost whole: Pieces, ghost rest: Pieces)
      requires Render(whole) == text + Render(rest)
      modifies `sout
      ensures sout == old(sout) + text && Followed(rest) == old(Followed(whole))
    {
      sout := sout + text;
    }

    method PushValue(text: string, ghost whole: Pieces, ghost rest: Pieces)
      requires Render(whole) == text + Render(rest)
      modifies `sout, `childValues
      ensures if addChildValues then childValues == old(childValues) + [text] && sout == old(sout)
              else childValues == old(childValues) && Followed(rest) == old(Followed(whole))
    {
      if addChildValues {
        childValues := childValues + [text];
      } else {
        Print(text, whole, rest);
      }
    }

    method WriteIndent(ghost rest: Pieces)
      modifies `sout
      ensures Followed(rest) == old(Followed(Break(style, indentString, false, rest)))
    {
      if style.indentation != "" {
        Print("\n" + indentString, Space("\n" + indentString, rest), rest);
      }
    }

    method IndentIfNeeded(ghost rest: Pieces)
      modifies `sout
      ensures Followed(rest) == old(Followed(Break(style, indentString, indented, rest)))
    {
      if !indented {
        WriteIndent(rest);
      }
    }

    method WriteWithIndent(text: string, ghost whole: Pieces, ghost rest: Pieces)
      requires Render(whole) == text + Render(rest)
      modifies `sout, `indented
      ensures Followed(rest) == old(Followed(Break(style, indentString, indented, whole))) && !indented
    {
      IndentIfNeeded(whole);
      Print(text, whole, rest);
      indented := false;
    }

    method Indent()
      modifies `indentString
      ensures indentString == old(indentString) + style.indentation
    {
      indentString := indentString + style.indentation;
    }

    method Unindent()
      requires |indentString| >= |style.indentation|
      modifies `indentString
      ensures indentString == old(indentString)[..|old(indentString)| - |style.indentation|]
    {
      indentString := indentString[..|indentString| - |style.indentation|];
    }

    /** What printing `value` does: caches its text, or prints its layout and leaves the indentation as it was. */
    twostate predicate Wrote(value: Value, rest: Pieces)
      reads this
    {
      && Valid() && indentString == old(indentString) && addChildValues == old(addChildValues)
      && if addChildValues
         then childValues == old(childValues) + [PushedText(style.fmt, value)] && sout == old(sout) && indented == old(indented)
         else Followed(rest) == old(Followed(Layout(style, value, indentString, indented, rest)))
              && indented == IndentedAfter(style, value, old(indented))
    }

    method Write(root: Value) returns (text: string)
      requires JsonValue.Valid(root) && Valid()
      modifies this
      ensures text == Render(Layout(style, Normal(root), "", true, End))
      ensures sout == text && indentString == "" && Valid()
    {
      sout, addChildValues, indented, indentString := "", false, true, "";
      WriteValue(root, End);
      assert sout + "" == sout;
      assert "" + Render(Layout(style, Normal(root), "", true, End)) == Render(Layout(style, Normal(root), "", true, End));
      text := sout;
    }

    method WriteValue(value: Value, ghost rest: Pieces)
      requires JsonValue.Valid(value) && Valid()
      requires addChildValues ==> Pushed(Normal(value)) && style.comments.NoComments?
      modifies this
      ensures Wrote(Normal(value), rest)
      decreases Height(value), 6
    {
      if value.Arr? {
        WriteArrayValue(value.entries, rest);
      } else if value.Obj? {
        WriteObjectValue(value.entries, rest);
      } else {
        var text := ScalarText(value);
        PushValue(text, Layout(style, Normal(value), indentString, indented, rest), rest);
      }
    }

    method ScalarText(value: Value) returns (text: string)
      requires JsonValue.Valid(value) && !value.Arr? && !value.Obj?
      ensures text == ScalarLexeme(style.fmt, Normal(value)).text
    {
      match value {
        case Null => text := "null";
        case Int(i) => text := Numbers.ValueToString(i);
        case UInt(u) => text := Numbers.UIntValueToString(u);
        case Real(r) => text := style.fmt(r);
        case Str(s) => text := Strings.ValueToQuotedStringN(s);
        case Bool(b) => text := if b then "true" else "false";
      }
    }

    method WriteObjectValue(es: seq<Entry>, ghost rest: Pieces)
      requires JsonValue.Valid(Obj(es)) && Valid()
      requires addChildValues ==> es == [] && style.comments.NoComments?
      modifies this
      ensures Wrote(Obj(NormalMembers(es)), rest)
      decreases 1 + EntriesHeight(es), 5
    {
      ghost var normal := NormalMembers(es);
      if es == [] {
        PushedLayout(style, Obj(normal), indentString, indented, rest);
        PushValue("{}", Layout(style, Obj(normal), indentString, indented, rest), rest);
        return;
      }
      WriteMembers(es, rest);
    }

    method WriteMembers(es: seq<Entry>, ghost rest: Pieces)
      requires JsonValue.Valid(Obj(es)) && Valid() && es != [] && !addChildValues
      modifies this
      ensures Valid() && indentString == old(indentString) && !addChildValues && !indented
      ensures Followed(rest) == old(Followed(Layout(style, Obj(NormalMembers(es)), indentString, indented, rest)))
      decreases 1 + EntriesHeight(es), 4
    {
      hide JsonValue.Valid, NormalMembers, LayoutMembers;
      ghost var close := Break(style, indentString, false, Lexed(CLOSE_OBJECT, rest));
      ghost var members := LayoutMembers(style, NormalMembers(es), 0, indentString + style.indentation, close);
      WriteWithIndent("{", Lexed(OPEN_OBJECT, members), members);
      Indent();
      WriteAllMembers(es, close);
      Unindent();
      assert indentString == old(indentString);
      WriteWithIndent("}", Lexed(CLOSE_OBJECT, rest), rest);
    }

    /** The members on lines of their own, separated by commas. */
    method WriteAllMembers(es: seq<Entry>, ghost close: Pieces)
      requires JsonValue.Valid(Obj(es)) && Valid() && es != [] && !addChildValues && !indented
      modifies this
      ensures Valid() && indentString == old(indentString) && !addChildValues && !indented
      ensures Followed(close) == old(Followed(LayoutMembers(style, NormalMembers(es), 0, indentString, close)))
      decreases 1 + EntriesHeight(es), 3
    {
      hide JsonValue.Valid, NormalMembers, Layout;
      ghost var normal := NormalMembers(es);
      var k := 0;
      while true
        invariant 0 <= k < |es| && Valid() && !addChildValues && !indented && indentString == old(indentString)
        invariant Followed(LayoutMembers(style, normal, k, indentString, close))
               == old(Followed(LayoutMembers(style, normal, 0, indentString, close)))
        decreases |es| - k
      {
        ghost var behind := LayoutMembers(style, normal, k + 1, indentString, close);
        WriteMember(es, k, CommaIf(k + 1 < |es|, behind));
        k := k + 1;
        if k == |es| {
          break;
        }
        Print(",", Lexed(COMMA, behind), behind);
      }
    }

    /** One member on a line of its own. */
    method WriteMember(es: seq<Entry>, k: nat, ghost rest: Pieces)
      requires JsonValue.Valid(Obj(es)) && k < |es| && Valid() && !addChildValues && !indented
      modifies this
      ensures Valid() && indentString == old(indentString) && !addChildValues && !indented
      ensures Followed(rest) == old(Followed(Break(style, indentString, false, Lexed(Lexeme(StringToken, NameText(es[k].key)),
                Colon(style.colon, Layout(style, NormalMembers(es)[k].value, indentString, false, rest))))))
      decreases 1 + EntriesHeight(es), 2
    {
      ghost var value := Layout(style, Normal(es[k].value), indentString, false, rest);
      NormalMembersAt(es, k);
      EntryHeight(es, k);
      var name := Strings.ValueToQuotedStringN(es[k].key.s);
      WriteWithIndent(name, Lexed(Lexeme(StringToken, name), Colon(style.colon, value)), Colon(style.colon, value));
      Print(ColonText(style.colon), Colon(style.colon, value), value);
      WriteValue(es[k].value, rest);
    }

    method WriteArrayValue(es: seq<Entry>, ghost rest: Pieces)
      requires JsonValue.Valid(Arr(es)) && Valid()
      requires addChildValues ==> ArraySize(es) == 0 && style.comments.NoComments?
      modifies this
      ensures Wrote(Arr(NormalElements(es, ArraySize(es))), rest)
      decreases 1 + EntriesHeight(es), 3
    {
      var size := ArraySize(es);
      ghost var normal := NormalElements(es, size);
      if size == 0 {
        PushedLayout(style, Arr(normal), indentString, indented, rest);
        PushValue("[]", Layout(style, Arr(normal), indentString, indented, rest), rest);
        return;
      }
      var isMultiLine := style.comments.AllComments?;
      if !isMultiLine {
        isMultiLine := IsMultilineArray(es, size);
      }
      if isMultiLine {
        WriteMultiLine(es, size, rest);
      } else {
        WriteOneLine(es, size, rest);
      }
    }

    /** The cache holds one text for every element. */
    ghost predicate Cached(normal: seq<Entry>)
      reads `childValues
    {
      && |childValues| == |normal|
      && forall i :: 0 <= i < |normal| ==> Pushed(normal[i].value) && childValues[i] == PushedText(style.fmt, normal[i].value)
    }

    /** `isMultineArray`: decides the layout, filling the cache when it has to measure the line. */
    method IsMultilineArray(es: seq<Entry>, size: nat) returns (isMultiLine: bool)
      requires JsonValue.Valid(Arr(es)) && size == ArraySize(es) > 0 && style.comments.NoComments? && !addChildValues
      modifies this
      ensures Valid() && sout == old(sout) && indentString == old(indentString) && indented == old(indented) && !addChildValues
      ensures isMultiLine == MultiLine(style, NormalElements(es, size))
      ensures Cached(NormalElements(es, size)) || (isMultiLine && childValues == [])
      decreases 1 + EntriesHeight(es), 2
    {
      isMultiLine := size * 3 % ARRAY_INDEX_MODULUS >= RIGHT_MARGIN;
      childValues := [];
      if !isMultiLine {
        isMultiLine := FindContainer(es, size);
      }
      if !isMultiLine {
        var lineLength := FillCache(es, size);
        isMultiLine := lineLength >= RIGHT_MARGIN;
      }
    }

    static method FindContainer(es: seq<Entry>, size: nat) returns (found: bool)
      requires size == ArraySize(es)
      ensures found <==> HasContainer(NormalElements(es, size))
    {
      ghost var normal := NormalElements(es, size);
      var index := 0;
      found := false;
      while index < size && !found
        invariant 0 <= index <= size
        invariant found ==> HasContainer(normal)
        invariant !found ==> forall i :: 0 <= i < index ==> Pushed(normal[i].value)
      {
        var child := Get(es, Index(index));
        NormalElementsAt(es, size, index);
        found := (child.Arr? && ArraySize(child.entries) > 0) || (child.Obj? && |child.entries| > 0);
        index := index + 1;
      }
    }

    /** Caches the text of every element and measures the line they would make. */
    method FillCache(es: seq<Entry>, size: nat) returns (lineLength: nat)
      requires JsonValue.Valid(Arr(es)) && size == ArraySize(es) > 0 && style.comments.NoComments? && !addChildValues
      requires childValues == [] && forall i :: 0 <= i < size ==> Pushed(NormalElements(es, size)[i].value)
      modifies this
      ensures Valid() && sout == old(sout) && indentString == old(indentString) && indented == old(indented) && !addChildValues
      ensures Cached(NormalElements(es, size))
      ensures lineLength == LineLength(style.fmt, NormalElements(es, size), size)
      decreases 1 + EntriesHeight(es), 1
    {
      hide JsonValue.Valid, NormalElements, PushedText;
      ghost var normal := NormalElements(es, size);
      addChildValues := true;
      lineLength := (4 + (size - 1) * 2) % ARRAY_INDEX_MODULUS;
      var index := 0;
      while index < size
        invariant 0 <= index <= size && addChildValues && |childValues| == index
        invariant sout == old(sout) && indentString == old(indentString) && indented == old(indented)
        invariant forall i :: 0 <= i < index ==> childValues[i] == PushedText(style.fmt, normal[i].value)
        invariant lineLength == LineLength(style.fmt, normal, index)
      {
        CacheElement(es, size, index);
        lineLength := (lineLength + |childValues[index]|) % ARRAY_INDEX_MODULUS;
        index := index + 1;
      }
      addChildValues := false;
    }

    method CacheElement(es: seq<Entry>, size: nat, index: nat)
      requires JsonValue.Valid(Arr(es)) && index < size == ArraySize(es) && style.comments.NoComments? && addChildValues
      requires Pushed(NormalElements(es, size)[index].value)
      modifies this
      ensures childValues == old(childValues) + [PushedText(style.fmt, NormalElements(es, size)[index].value)]
      ensures sout == old(sout) && indentString == old(indentString) && indented == old(indented) && addChildValues
      decreases 1 + EntriesHeight(es), 0
    {
      NormalElementsAt(es, size, index);
      GetHeight(es, Index(index));
      WriteValue(Get(es, Index(index)), End);
    }

    method WriteOneLine(es: seq<Entry>, size: nat, ghost rest: Pieces)
      requires size == ArraySize(es) > 0 && Cached(NormalElements(es, size)) && !MultiLine(style, NormalElements(es, size))
      modifies `sout
      ensures Followed(rest) == old(Followed(Layout(style, Arr(NormalElements(es, size)), indentString, indented, rest)))
    {
      hide NormalElements, PushedText;
      ghost var normal := NormalElements(es, size);
      ghost var close := Pad(style, Lexed(CLOSE_ARRAY, rest));
      var pad := if style.indentation != "" then " " else "";
      ghost var line := LayoutLine(style, normal, 0, close);
      Print("[", Lexed(OPEN_ARRAY, Pad(style, line)), Pad(style, line));
      PrintPad(line);
      var index := 0;
      while index < size
        invariant 0 <= index <= size
        invariant Followed(LayoutLine(style, normal, index, close))
               == old(Followed(Layout(style, Arr(normal), indentString, indented, rest)))
      {
        ghost var behind := LayoutLine(style, normal, index + 1, close);
        ghost var element := Layout(style, normal[index].value, "", true, behind);
        if index > 0 {
          Print(",", Lexed(COMMA, Pad(style, element)), Pad(style, element));
          PrintPad(element);
        }
        PushedLayout(style, normal[index].value, "", true, behind);
        Print(childValues[index], element, behind);
        index := index + 1;
      }
      PrintPad(Lexed(CLOSE_ARRAY, rest));
      Print("]", Lexed(CLOSE_ARRAY, rest), rest);
    }

    method PrintPad(ghost rest: Pieces)
      modifies `sout
      ensures Followed(rest) == old(Followed(Pad(style, rest)))
    {
      if style.indentation != "" {
        Print(" ", Space(" ", rest), rest);
      }
    }

    method WriteMultiLine(es: seq<Entry>, size: nat, ghost rest: Pieces)
      requires JsonValue.Valid(Arr(es)) && size == ArraySize(es) > 0 && !addChildValues && Valid()
      requires MultiLine(style, NormalElements(es, size))
      requires childValues == [] || Cached(NormalElements(es, size))
      modifies this
      ensures Valid() && indentString == old(indentString) && !addChildValues && !indented
      ensures Followed(rest) == old(Followed(Layout(style, Arr(NormalElements(es, size)), indentString, indented, rest)))
      decreases 1 + EntriesHeight(es), 2
    {
      hide JsonValue.Valid, NormalElements, PushedText;
      ghost var normal := NormalElements(es, size);
      ghost var close := Break(style, indentString, false, Lexed(CLOSE_ARRAY, rest));
      ghost var elements := LayoutElements(style, normal, 0, indentString + style.indentation, close);
      WriteWithIndent("[", Lexed(OPEN_ARRAY, elements), elements);
      Indent();
      var hasChildValue := childValues != [];
      var index := 0;
      while true
        invariant 0 <= index < size && Valid() && !addChildValues && !indented
        invariant indentString == old(indentString) + style.indentation
        invariant hasChildValue ==> Cached(normal)
        invariant Followed(LayoutElements(style, normal, index, indentString, close))
               == old(Followed(Layout(style, Arr(normal), indentString, indented, rest)))
        decreases size - index
      {
        ghost var behind := LayoutElements(style, normal, index + 1, indentString, close);
        ghost var comma := CommaIf(index + 1 < size, behind);
        if hasChildValue {
          PushedLayout(style, normal[index].value, indentString, true, comma);
          WriteWithIndent(childValues[index], Layout(style, normal[index].value, indentString, true, comma), comma);
        } else {
          WriteElement(es, size, index, comma);
        }
        index := index + 1;
        if index == size {
          break;
        }
        Print(",", Lexed(COMMA, behind), behind);
      }
      Unindent();
      assert indentString == old(indentString);
      WriteWithIndent("]", Lexed(CLOSE_ARRAY, rest), rest);
    }

    /** An element that is not cached; nested arrays may overwrite the cache. */
    method WriteElement(es: seq<Entry>, size: nat, index: nat, ghost rest: Pieces)
      requires JsonValue.Valid(Arr(es)) && index < size == ArraySize(es) && !addChildValues && Valid()
      modifies this
      ensures Valid() && indentString == old(indentString) && !addChildValues && !indented
      ensures Followed(rest) == old(Followed(Break(style, indentString, indented,
                Layout(style, NormalElements(es, size)[index].value, indentString, true, rest))))
      decreases 1 + EntriesHeight(es), 1
    {
      NormalElementsAt(es, size, index);
      GetHeight(es, Index(index));
      IndentIfNeeded(Layout(style, NormalElements(es, size)[index].value, indentString, true, rest));
      indented := true;
      WriteValue(Get(es, Index(index)), rest);
      indented := false;
    }
  }
}
