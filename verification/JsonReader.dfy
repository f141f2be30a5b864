/**
 `OurReader`: the cursor, the stack of nodes under construction and the error list, updated
 in place, and proved to compute what JsonGrammar says.

 The library's stack holds pointers into the tree.  Here the top of `nodes` is the value
 being filled; popping it writes it back into its parent.
 */
module JsonReader {
  import opened JsonValue
  import Numbers = JsonNumber
  import Strings = JsonString
  import opened JsonToken
  import opened G = JsonGrammar
  import opened Options

  /** How a reading method ends: with its boolean result, or by an exception. */
  datatype Outcome = Returned(ok: bool) | Raised(exn: Exception)

  class OurReader {
    const scan: ScanDouble
    var document: string
    var current: nat
    var nodes: seq<Value>
    var errors: seq<ErrorInfo>

    constructor (scan: ScanDouble)
      ensures this.scan == scan && document == "" && current == 0 && nodes == [] && errors == []
    {
      this.scan := scan;
      document, current, nodes, errors := "", 0, [], [];
    }

    ghost predicate Valid()
      reads this
    {
      current <= |document|
    }

    /** The values on the stack under the one being filled. */
    ghost function Below(): seq<Value>
      requires nodes != []
      reads `nodes
    {
      nodes[..|nodes|-1]
    }

    /** `currentValue()`. */
    function Top(): Value
      requires nodes != []
      reads `nodes
    {
      nodes[|nodes|-1]
    }

    /** The state and outcome agree with `r`: the nodes below the current one and earlier errors are untouched. */
    ghost predicate Agrees(r: Step, out: Outcome, below: seq<Value>, earlier: seq<ErrorInfo>)
      reads this
    {
      match r
      case Threw(x) => out == Raised(x)
      case Ok(p, v) => out == Returned(true) && Stands(p, v, below) && errors == earlier
      case Fail(p, v, e) => out == Returned(false) && Stands(p, v, below) && errors == earlier + [e]
    }

    ghost predicate Stands(pos: nat, top: Value, below: seq<Value>)
      reads this
    {
      current == pos && nodes != [] && Below() == below && Top() == top
    }

    method GetNextChar() returns (c: char)
      requires Valid()
      modifies `current
      ensures if old(current) == |document| then c == '\0' && current == old(current)
              else c == document[old(current)] && current == old(current) + 1
    {
      if current == |document| {
        return '\0';
      }
      c := document[current];
      current := current + 1;
    }

    method SkipSpaces()
      requires Valid()
      modifies `current
      ensures current == JsonToken.SkipSpaces(document, old(current))
    {
      while current != |document|
        invariant current <= |document|
        invariant JsonToken.SkipSpaces(document, current) == JsonToken.SkipSpaces(document, old(current))
        decreases |document| - current
      {
        if IsSpace(document[current]) {
          current := current + 1;
        } else {
          break;
        }
      }
    }

    method Match(pattern: string) returns (ok: bool)
      requires Valid()
      modifies `current
      ensures ok == Matches(document, old(current), pattern)
      ensures current == if ok then old(current) + |pattern| else old(current)
    {
      if |document| - current < |pattern| {
        return false;
      }
      var index := |pattern|;
      while index > 0
        invariant 0 <= index <= |pattern| <= |document| - current && current == old(current)
        invariant forall k :: index <= k < |pattern| ==> document[current+k] == pattern[k]
      {
        index := index - 1;
        if document[current+index] != pattern[index] {
          assert document[current..current+|pattern|][index] != pattern[index];
          return false;
        }
      }
      assert document[current..current+|pattern|] == pattern;
      current := current + |pattern|;
      return true;
    }

    method ReadString() returns (ok: bool)
      requires Valid()
      modifies `current
      ensures (ok, current) == StringEnd(document, old(current))
    {
      ok := false;
      while current != |document|
        invariant current <= |document| && !ok
        invariant StringEnd(document, current) == StringEnd(document, old(current))
        decreases |document| - current
      {
        var c := GetNextChar();
        if c == '\\' {
          var _ := GetNextChar();
        } else if c == '\"' {
          ok := true;
          break;
        }
      }
    }

    method ReadCStyleComment() returns (ok: bool)
      requires Valid()
      modifies `current
      ensures var p := BlockCommentEnd(document, old(current));
              if p == |document| then !ok && current == p
              else ok == (document[p] == '/') && current == p + 1
    {
      while current + 1 < |document|
        invariant current <= |document|
        invariant BlockCommentEnd(document, current) == BlockCommentEnd(document, old(current))
      {
        var c := GetNextChar();
        if c == '*' && document[current] == '/' {
          break;
        }
      }
      assert current == BlockCommentEnd(document, old(current));
      var c := GetNextChar();
      return c == '/';
    }

    method ReadCppStyleComment() returns (ok: bool)
      requires Valid()
      modifies `current
      ensures ok && current == LineCommentEnd(document, old(current))
    {
      while current != |document|
        invariant current <= |document|
        invariant LineCommentEnd(document, current) == LineCommentEnd(document, old(current))
        decreases |document| - current
      {
        var c := GetNextChar();
        if c == '\n' {
          break;
        }
        if c == '\r' {
          if current != |document| && document[current] == '\n' {
            var _ := GetNextChar();
          }
          break;
        }
      }
      return true;
    }

    method ReadComment() returns (ok: bool)
      requires Valid()
      modifies `current
      ensures (ok, current) == CommentEnd(document, old(current))
    {
      var c := GetNextChar();
      ok := false;
      if c == '*' {
        ok := ReadCStyleComment();
      } else if c == '/' {
        ok := ReadCppStyleComment();
      }
    }

    /** Advances over digits; the three digit loops of `readNumber`. */
    method SkipDigits()
      requires Valid()
      modifies `current
      ensures current == DigitsEnd(document, old(current))
    {
      while current < |document| && Numbers.IsDigit(document[current])
        invariant current <= |document|
        invariant DigitsEnd(document, current) == DigitsEnd(document, old(current))
      {
        current := current + 1;
      }
    }

    /** The result is false only for a minus sign before `I`. */
    method ReadNumber(checkInf: bool) returns (ok: bool)
      requires Valid()
      modifies `current
      ensures ok <==> !(checkInf && old(current) < |document| && document[old(current)] == 'I')
      ensures current == if ok then NumberEnd(document, old(current)) else old(current) + 1
    {
      if checkInf && current != |document| && document[current] == 'I' {
        current := current + 1;
        return false;
      }
      SkipDigits();
      ReadFraction();
      ReadExponent();
      return true;
    }

    method ReadFraction()
      requires Valid()
      modifies `current
      ensures current == FractionEnd(document, old(current))
    {
      if current < |document| && document[current] == '.' {
        current := current + 1;
        SkipDigits();
      }
    }

    method ReadExponent()
      requires Valid()
      modifies `current
      ensures current == ExponentEnd(document, old(current))
    {
      if current < |document| && (document[current] == 'e' || document[current] == 'E') {
        current := current + 1;
        if current < |document| && (document[current] == '+' || document[current] == '-') {
          current := current + 1;
        }
        SkipDigits();
      }
    }

    method ReadToken() returns (token: Token)
      requires Valid()
      modifies `current
      ensures token == JsonToken.ReadToken(document, old(current))
      ensures current == token.end
    {
      SkipSpaces();
      if current == |document| {
        return Token(EndOfStream, current, current);
      }
      token := ScanToken();
    }

    /** The switch of `readToken` over the first character of a token. */
    method ScanToken() returns (token: Token)
      requires current < |document|
      modifies `current
      ensures token == Scan(document, old(current))
      ensures current == token.end
    {
      var start := current;
      var c := GetNextChar();
      var ok := true;
      var kind := ErrorToken;
      match c {
        case '{' => kind := ObjectBegin;
        case '}' => kind := ObjectEnd;
        case '[' => kind := ArrayBegin;
        case ']' => kind := ArrayEnd;
        case '\"' => kind := StringToken; ok := ReadString();
        case '\'' => kind := Comment; ok := ReadComment();
        case '/' => kind := Comment; ok := ReadComment();
        case '-' => kind := NumberToken; ok := ReadNumber(true);
        case 't' => kind := TrueToken; ok := Match("rue");
        case 'f' => kind := FalseToken; ok := Match("alse");
        case 'n' => kind := NullToken; ok := Match("ull");
        case ',' => kind := ArraySeparator;
        case ':' => kind := MemberSeparator;
        case '\0' => kind := EndOfStream;
        case _ =>
          if Numbers.IsDigit(c) {
            kind := NumberToken;
            var _ := ReadNumber(false);
          } else {
            ok := false;
          }
      }
      if !ok {
        kind := ErrorToken;
      }
      token := Token(kind, start, current);
    }

    method SkipCommentTokens() returns (token: Token)
      requires Valid()
      modifies `current
      ensures token == NextToken(document, old(current))
      ensures current == token.end
    {
      token := ReadToken();
      while token.kind == Comment
        invariant token.end == current <= |document|
        invariant AfterComments(document, token) == NextToken(document, old(current))
        decreases |document| - current, token.kind == Comment
      {
        token := ReadToken();
      }
    }

    method AddError(message: Message, token: Token)
      modifies `errors
      ensures errors == old(errors) + [ErrorInfo(message, token)]
    {
      errors := errors + [ErrorInfo(message, token)];
    }

    /** Skips to the closing token; errors met on the way are discarded. */
    method RecoverFromError(skipUntil: TokenType)
      requires Valid()
      modifies `current, `errors
      ensures current == Recover(document, old(current), skipUntil)
      ensures errors == old(errors)
    {
      var errorCount := |errors|;
      while true
        invariant current <= |document| && errors == old(errors)
        invariant Recover(document, current, skipUntil) == Recover(document, old(current), skipUntil)
        decreases |document| - current
      {
        var skip := ReadToken();
        if skip.kind == skipUntil || skip.kind == EndOfStream {
          break;
        }
      }
      errors := errors[..errorCount];
    }

    method AddErrorAndRecover(message: Message, token: Token, skipUntil: TokenType)
      requires Valid()
      modifies `current, `errors
      ensures current == Recover(document, old(current), skipUntil)
      ensures errors == old(errors) + [ErrorInfo(message, token)]
    {
      AddError(message, token);
      RecoverFromError(skipUntil);
    }

    /** `currentValue().swapPayload(v)`. */
    method SetCurrentValue(v: Value)
      requires nodes != []
      modifies `nodes
      ensures nodes != [] && Below() == old(Below()) && Top() == v
    {
      nodes := nodes[..|nodes|-1] + [v];
    }

    /** Reads one value into the node on top of the stack. */
    method ReadValue() returns (out: Outcome)
      requires Valid() && nodes != []
      modifies `current, `nodes, `errors
      ensures Agrees(G.ReadValue(scan, document, old(current), |old(nodes)|, old(Top())), out, old(Below()), old(errors))
      decreases |document| - current, 1
    {
      hide ReadMembers, ReadElements, NextToken, JsonToken.SkipSpaces, Strings.DecodeQuoted, G.DecodeNumber;
      if |nodes| > STACK_LIMIT {
        return Raised(StackLimitExceeded);
      }
      var token := SkipCommentTokens();
      if token.kind == ObjectBegin {
        out := ReadObject();
      } else if token.kind == ArrayBegin {
        out := ReadArray();
      } else {
        out := ReadScalar(token, old(current));
      }
    }

    /** The cases of `readValue` for a token that is not the beginning of an array or an object. */
    method ReadScalar(token: Token, ghost start: nat) returns (out: Outcome)
      requires Valid() && nodes != [] && |nodes| <= STACK_LIMIT && start <= |document|
      requires token == NextToken(document, start) && token.kind != ObjectBegin && token.kind != ArrayBegin && current == token.end
      modifies `nodes, `errors
      ensures Agrees(G.ReadValue(scan, document, start, |old(nodes)|, old(Top())), out, old(Below()), old(errors))
    {
      hide ReadMembers, ReadElements, NextToken, JsonToken.SkipSpaces, Strings.DecodeQuoted, G.DecodeNumber;
      if token.kind == NumberToken {
        var decoded := DecodeNumber(token);
        if decoded.Some? {
          SetCurrentValue(decoded.value);
        }
        out := Returned(decoded.Some?);
      } else if token.kind == StringToken {
        var decoded := Strings.DecodeString(Text(document, token));
        if decoded.Success? {
          SetCurrentValue(Str(decoded.value));
        } else {
          AddError(BadString(decoded.error), token);
        }
        out := Returned(decoded.Success?);
      } else if token.kind == TrueToken {
        SetCurrentValue(Bool(true));
        out := Returned(true);
      } else if token.kind == FalseToken {
        SetCurrentValue(Bool(false));
        out := Returned(true);
      } else if token.kind == NullToken {
        SetCurrentValue(Null);
        out := Returned(true);
      } else {
        AddError(ValueExpected, token);
        out := Returned(false);
      }
    }

    /** Decodes a number token as an integer or a double, or records an error. */
    method DecodeNumber(token: Token) returns (decoded: Option<Value>)
      requires token.start < token.end <= |document|
      modifies `errors
      ensures decoded == G.DecodeNumber(scan, Text(document, token))
      ensures errors == if decoded.Some? then old(errors) else old(errors) + [ErrorInfo(NotANumber, token)]
    {
      decoded := Numbers.DecodeInteger(Text(document, token));
      if decoded.None? {
        var double := scan(Text(document, token));
        if double.Some? {
          decoded := Some(Real(double.value));
        } else {
          AddError(NotANumber, token);
        }
      }
    }

    /** Reads one child: pushes `slot`, reads a value into it and pops it. */
    method ReadChild(slot: Value) returns (out: Outcome, child: Value)
      requires Valid() && nodes != []
      modifies `current, `nodes, `errors
      ensures match G.ReadValue(scan, document, old(current), |old(nodes)| + 1, slot)
              case Threw(x) => out == Raised(x)
              case Ok(p, v) => out == Returned(true) && current == p && child == v && nodes == old(nodes) && errors == old(errors)
              case Fail(p, v, e) => out == Returned(false) && current == p && child == v && nodes == old(nodes) && errors == old(errors) + [e]
      decreases |document| - current, 2
    {
      nodes := nodes + [slot];
      assert Below() == old(nodes);
      out := ReadValue();
      if out.Raised? {
        return out, Null;
      }
      child := Top();
      nodes := nodes[..|nodes|-1];
    }

    method ReadArray() returns (out: Outcome)
      requires Valid() && nodes != []
      modifies `current, `nodes, `errors
      ensures var p := JsonToken.SkipSpaces(document, old(current));
              Agrees(if p < |document| && document[p] == ']' then Ok(p + 1, Arr([]))
                     else ReadElements(scan, document, p, |old(nodes)|, []),
                     out, old(Below()), old(errors))
      decreases |document| - current, 4
    {
      hide G.ReadElement, Recover, Put;
      ghost var below := Below();
      SetCurrentValue(Arr([]));
      SkipSpaces();
      if current != |document| && document[current] == ']' {
        var endArray := ReadToken();
        assert endArray == Token(ArrayEnd, endArray.start, endArray.start + 1);
        return Returned(true);
      }
      ghost var start := current;
      var index := 0;
      while true
        invariant old(current) <= start <= current <= |document| && errors == old(errors)
        invariant nodes != [] && Below() == below && Top().Arr? && Dense(Top().entries) && |Top().entries| == index
        invariant ReadElements(scan, document, current, |nodes|, Top().entries)
               == ReadElements(scan, document, start, |old(nodes)|, [])
        decreases |document| - current
      {
        var done;
        out, done := ReadElement(index);
        if done {
          return;
        }
        index := index + 1;
      }
    }

    /** One pass of the loop of `readArray`; `done` tells that the loop ends. */
    method ReadElement(index: nat) returns (out: Outcome, done: bool)
      requires Valid() && nodes != [] && Top().Arr? && Dense(Top().entries) && |Top().entries| == index
      modifies `current, `nodes, `errors
      ensures match G.ReadElement(scan, document, old(current), |old(nodes)|, old(Top()).entries)
              case Stop(r) => done && Agrees(r, out, old(Below()), old(errors))
              case More(p, es) =>
                !done && out == Returned(true) && Stands(p, Arr(es), old(Below())) && errors == old(errors)
                && Dense(es) && |es| == index + 1
      decreases |document| - current, 3
    {
      hide Put, G.ReadValue, G.AfterElement, Recover;
      var es := Top().entries;
      PutDense(es, Null);
      SetCurrentValue(Arr(Put(es, Index(index), Null)));
      var child;
      out, child := ReadChild(Null);
      if out.Raised? {
        return out, true;
      }
      PutDense(es, child);
      SetCurrentValue(Arr(Put(es, Index(index), child)));
      if !out.ok {
        RecoverFromError(ArrayEnd);
        return out, true;
      }
      out, done := AfterElement();
    }

    /** The token behind an element; `done` tells that the loop of `readArray` ends. */
    method AfterElement() returns (out: Outcome, done: bool)
      requires Valid() && nodes != [] && Top().Arr?
      modifies `current, `errors
      ensures match G.AfterElement(document, old(current), old(Top()).entries)
              case Stop(r) => done && Agrees(r, out, old(Below()), old(errors))
              case More(p, es) =>
                !done && out == Returned(true) && Stands(p, Arr(es), old(Below())) && errors == old(errors)
    {
      var token := SkipCommentTokens();
      if token.kind != ArraySeparator && token.kind != ArrayEnd {
        AddErrorAndRecover(ElementSeparatorExpected, token, ArrayEnd);
        return Returned(false), true;
      }
      return Returned(true), token.kind == ArrayEnd;
    }

    method ReadObject() returns (out: Outcome)
      requires Valid() && nodes != []
      modifies `current, `nodes, `errors
      ensures Agrees(ReadMembers(scan, document, old(current), |old(nodes)|, [], ""), out, old(Below()), old(errors))
      decreases |document| - current, 4
    {
      hide ReadMembers;
      ghost var below := Below();
      var name := "";
      SetCurrentValue(Obj([]));
      while true
        invariant old(current) <= current <= |document| && errors == old(errors)
        invariant nodes != [] && Below() == below && Top().Obj?
        invariant ReadMembers(scan, document, current, |nodes|, Top().entries, name)
               == ReadMembers(scan, document, old(current), |old(nodes)|, [], "")
        decreases |document| - current
      {
        var done;
        out, done, name := ReadPass(name);
        if done {
          return;
        }
      }
    }

    /** One pass of the loop of `readObject`; `next` is the name of the member read. */
    method ReadPass(name: string) returns (out: Outcome, done: bool, next: string)
      requires Valid() && nodes != [] && Top().Obj?
      modifies `current, `nodes, `errors
      ensures var r := ReadMembers(scan, document, old(current), |old(nodes)|, old(Top()).entries, name);
              if done then Agrees(r, out, old(Below()), old(errors))
              else
                && old(current) < current <= |document| && errors == old(errors)
                && nodes != [] && Below() == old(Below()) && Top().Obj?
                && ReadMembers(scan, document, current, |nodes|, Top().entries, next) == r
      decreases |document| - current, 3, 1
    {
      hide G.ReadMember, Recover, NextToken, Strings.DecodeQuoted;
      next := name;
      done := true;
      var tokenName := SkipCommentTokens();
      if tokenName.kind == ObjectEnd && name == "" {
        return Returned(true), true, name;
      }
      if tokenName.kind != StringToken {
        AddErrorAndRecover(MemberNameExpected, tokenName, ObjectEnd);
        return Returned(false), true, name;
      }
      var decoded := Strings.DecodeString(Text(document, tokenName));
      if decoded.Failure? {
        AddError(BadString(decoded.error), tokenName);
        RecoverFromError(ObjectEnd);
        return Returned(false), true, name;
      }
      next := decoded.value;
      out, done := ReadMember(next);
    }

    /** One pass of the loop of `readObject` after the member name; `done` tells that the loop ends. */
    method ReadMember(name: string) returns (out: Outcome, done: bool)
      requires Valid() && nodes != [] && Top().Obj?
      modifies `current, `nodes, `errors
      ensures match G.ReadMember(scan, document, old(current), |old(nodes)|, old(Top()).entries, name)
              case Stop(r) => done && Agrees(r, out, old(Below()), old(errors))
              case More(p, es) =>
                !done && out == Returned(true) && Stands(p, Obj(es), old(Below())) && errors == old(errors)
      decreases |document| - current, 3
    {
      var colon := ReadToken();
      if colon.kind != MemberSeparator {
        AddErrorAndRecover(ColonExpected, colon, ObjectEnd);
        return Returned(false), true;
      }
      out, done := ReadNamed(name);
    }

    /** The rest of the pass after the colon. */
    method ReadNamed(name: string) returns (out: Outcome, done: bool)
      requires Valid() && nodes != [] && Top().Obj?
      modifies `current, `nodes, `errors
      ensures match G.ReadNamed(scan, document, old(current), |old(nodes)|, old(Top()).entries, name)
              case Stop(r) => done && Agrees(r, out, old(Below()), old(errors))
              case More(p, es) =>
                !done && out == Returned(true) && Stands(p, Obj(es), old(Below())) && errors == old(errors)
      decreases |document| - current, 3
    {
      hide Put, Get, G.ReadValue, G.AfterMember, Recover;
      done := true;
      if |name| >= KEY_LENGTH_LIMIT {
        return Raised(KeyTooLong), true;
      }
      var es := Top().entries;
      var slot := Get(es, Name(name));
      SetCurrentValue(Obj(Put(es, Name(name), slot)));
      var child;
      out, child := ReadChild(slot);
      if out.Raised? {
        return;
      }
      SetCurrentValue(Obj(Put(es, Name(name), child)));
      if !out.ok {
        RecoverFromError(ObjectEnd);
        return;
      }
      out, done := AfterMember();
    }

    /** The token behind a member; `done` tells that the loop of `readObject` ends. */
    method AfterMember() returns (out: Outcome, done: bool)
      requires Valid() && nodes != [] && Top().Obj?
      modifies `current, `errors
      ensures match G.AfterMember(document, old(current), old(Top()).entries)
              case Stop(r) => done && Agrees(r, out, old(Below()), old(errors))
              case More(p, es) =>
                !done && out == Returned(true) && Stands(p, Obj(es), old(Below())) && errors == old(errors)
    {
      var comma := ReadToken();
      if comma.kind != ObjectEnd && comma.kind != ArraySeparator && comma.kind != Comment {
        AddErrorAndRecover(MemberSeparatorExpected, comma, ObjectEnd);
        return Returned(false), true;
      }
      if comma.kind == Comment {
        comma := SkipCommentTokens();
      }
      return Returned(true), comma.kind == ObjectEnd;
    }

    /**
     `parse` with comment collection off.  The root and the error list are what the grammar
     says; after a normal return the stack holds the root alone and the cursor is inside.
     */
    method Parse(doc: string, root: Value) returns (out: Outcome)
      modifies this
      ensures document == doc
      ensures match G.Parse(scan, doc, root)
              case Threw(x) => out == Raised(x)
              case Ok(_, v) => out == Returned(true) && nodes == [v] && errors == [] && Valid()
              case Fail(_, v, e) => out == Returned(false) && nodes == [v] && errors == [e] && Valid()
    {
      hide G.ReadValue, NextToken, ReadMembers, ReadElements;
      document, current, errors, nodes := doc, 0, [], [root];
      assert Below() == [];
      out := ReadValue();
      if out.Returned? {
        var _ := SkipCommentTokens();
      }
    }
  }
}
