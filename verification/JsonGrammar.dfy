/**
 What `OurReader` computes on a document, stated without its state: the cursor, the node
 stack and the error list become arguments and results.  Error recovery, repeated member
 names and the tokens swallowed after a comment are as in the code.
 */
module JsonGrammar {
  import opened JsonValue
  import opened JsonNumber
  import Strings = JsonString
  import opened JsonToken
  import opened Options

  /** `sscanf("%lf")` on a token that is no integer; None where it matches nothing. */
  type ScanDouble = string -> Option<real>

  /** Nesting beyond this depth stops the reader with an exception. */
  const STACK_LIMIT := 1000

  datatype Exception = StackLimitExceeded | KeyTooLong

  datatype Message =
    | ValueExpected
    | NotANumber
    | BadString(cause: Strings.StringError)
    | MemberNameExpected
    | ColonExpected
    | MemberSeparatorExpected
    | ElementSeparatorExpected

  datatype ErrorInfo = ErrorInfo(message: Message, token: Token)

  /**
   The outcome of reading a value: an exception; the position after it and the value; or,
   after recovery, the position, the value as far as it was built and the error recorded.
   */
  datatype Step =
    | Threw(exn: Exception)
    | Ok(pos: nat, val: Value)
    | Fail(pos: nat, val: Value, error: ErrorInfo)

  /** The outcome of one pass of a reading loop: the loop ends with a step, or goes on with these entries. */
  datatype Pass = Stop(step: Step) | More(pos: nat, entries: seq<Entry>) {
    ghost predicate Inside(pos: nat, end: nat) {
      match this
      case Stop(Threw(_)) => true
      case Stop(Ok(p, _)) => pos < p <= end
      case Stop(Fail(p, _, _)) => pos <= p <= end
      case More(p, _) => pos < p <= end
    }
  }

  /** `decodeNumber` with its fallback to `decodeDouble`. */
  ghost function DecodeNumber(scan: ScanDouble, text: string): Option<Value>
    requires text != ""
  {
    match IntegerOf(text)
    case Some(v) => Some(v)
    case None =>
      match scan(text)
      case Some(r) => Some(Real(r))
      case None => None
  }

  /** `readValue` at `pos`, with `depth` nodes on the stack and `current` in the slot to fill. */
  ghost function ReadValue(scan: ScanDouble, doc: string, pos: nat, depth: nat, current: Value): (r: Step)
    requires pos <= |doc|
    ensures r.Ok? ==> pos < r.pos <= |doc|
    ensures r.Fail? ==> pos <= r.pos <= |doc|
    decreases |doc| - pos, 1
  {
    if depth > STACK_LIMIT then Threw(StackLimitExceeded)
    else
      var t := NextToken(doc, pos);
      match t.kind
      case ObjectBegin => ReadMembers(scan, doc, t.end, depth, [], "")
      case ArrayBegin =>
        var p := SkipSpaces(doc, t.end);
        if p < |doc| && doc[p] == ']' then Ok(p + 1, Arr([]))
        else ReadElements(scan, doc, p, depth, [])
      case NumberToken =>
        (match DecodeNumber(scan, Text(doc, t))
         case Some(v) => Ok(t.end, v)
         case None => Fail(t.end, current, ErrorInfo(NotANumber, t)))
      case StringToken =>
        (match Strings.DecodeQuoted(Text(doc, t))
         case Success(s) => Ok(t.end, Str(s))
         case Failure(e) => Fail(t.end, current, ErrorInfo(BadString(e), t)))
      case TrueToken => Ok(t.end, Bool(true))
      case FalseToken => Ok(t.end, Bool(false))
      case NullToken => Ok(t.end, Null)
      case _ => Fail(t.end, current, ErrorInfo(ValueExpected, t))
  }

  /** The loop of `readArray`, with the elements read so far. */
  ghost function ReadElements(scan: ScanDouble, doc: string, pos: nat, depth: nat, es: seq<Entry>): (r: Step)
    requires pos <= |doc|
    ensures r.Ok? ==> pos < r.pos <= |doc|
    ensures r.Fail? ==> pos <= r.pos <= |doc|
    decreases |doc| - pos, 3
  {
    match ReadElement(scan, doc, pos, depth, es)
    case Stop(r) => r
    case More(p, es') => ReadElements(scan, doc, p, depth, es')
  }

  /** What follows an element. */
  ghost function AfterElement(doc: string, pos: nat, es: seq<Entry>): (r: Pass)
    requires pos <= |doc|
    ensures r.Inside(pos, |doc|)
  {
    var t := NextToken(doc, pos);
    if t.kind == ArrayEnd then Stop(Ok(t.end, Arr(es)))
    else if t.kind == ArraySeparator then More(t.end, es)
    else Stop(Fail(Recover(doc, t.end, ArrayEnd), Arr(es), ErrorInfo(ElementSeparatorExpected, t)))
  }

  /** One pass of that loop: an element and the token behind it. */
  ghost function ReadElement(scan: ScanDouble, doc: string, pos: nat, depth: nat, es: seq<Entry>): (r: Pass)
    requires pos <= |doc|
    ensures r.Inside(pos, |doc|)
    decreases |doc| - pos, 2
  {
    match ReadValue(scan, doc, pos, depth + 1, Null)
    case Threw(x) => Stop(Threw(x))
    case Fail(p, v, e) => Stop(Fail(Recover(doc, p, ArrayEnd), Arr(Put(es, Index(|es|), v)), e))
    case Ok(p, v) => AfterElement(doc, p, Put(es, Index(|es|), v))
  }

  /** The loop of `readObject`, with the members read so far and the name of the last one. */
  ghost function ReadMembers(scan: ScanDouble, doc: string, pos: nat, depth: nat, es: seq<Entry>, name: string): (r: Step)
    requires pos <= |doc|
    ensures r.Ok? ==> pos < r.pos <= |doc|
    ensures r.Fail? ==> pos <= r.pos <= |doc|
    decreases |doc| - pos, 3
  {
    var t := NextToken(doc, pos);
    if t.kind == ObjectEnd && name == "" then Ok(t.end, Obj(es))
    else if t.kind != StringToken then
      Fail(Recover(doc, t.end, ObjectEnd), Obj(es), ErrorInfo(MemberNameExpected, t))
    else
      match Strings.DecodeQuoted(Text(doc, t))
      case Failure(e) => Fail(Recover(doc, t.end, ObjectEnd), Obj(es), ErrorInfo(BadString(e), t))
      case Success(key) =>
        match ReadMember(scan, doc, t.end, depth, es, key)
        case Stop(r) => r
        case More(p, es') => ReadMembers(scan, doc, p, depth, es', key)
  }

  /** One pass of that loop after the member name. */
  ghost function ReadMember(scan: ScanDouble, doc: string, pos: nat, depth: nat, es: seq<Entry>, key: string): (r: Pass)
    requires pos <= |doc|
    ensures r.Inside(pos, |doc|)
    decreases |doc| - pos, 2
  {
    var colon := ReadToken(doc, pos);
    if colon.kind != MemberSeparator then
      Stop(Fail(Recover(doc, colon.end, ObjectEnd), Obj(es), ErrorInfo(ColonExpected, colon)))
    else ReadNamed(scan, doc, colon.end, depth, es, key)
  }

  /** The token itself, or the first one after it that is no comment. */
  ghost function AfterComments(doc: string, t: Token): (r: Token)
    requires t.end <= |doc|
    ensures t.end <= r.end <= |doc|
  {
    if t.kind == Comment then NextToken(doc, t.end) else t
  }

  /** What follows a member.  After a comment any token passes for a comma. */
  ghost function AfterMember(doc: string, pos: nat, es: seq<Entry>): (r: Pass)
    requires pos <= |doc|
    ensures r.More? ==> pos <= r.pos <= |doc|
    ensures r.Stop? && r.step.Ok? ==> pos < r.step.pos <= |doc|
    ensures r.Stop? && r.step.Fail? ==> pos <= r.step.pos <= |doc|
  {
    var comma := ReadToken(doc, pos);
    if comma.kind != ObjectEnd && comma.kind != ArraySeparator && comma.kind != Comment then
      Stop(Fail(Recover(doc, comma.end, ObjectEnd), Obj(es), ErrorInfo(MemberSeparatorExpected, comma)))
    else
      var last := AfterComments(doc, comma);
      if last.kind == ObjectEnd then Stop(Ok(last.end, Obj(es))) else More(last.end, es)
  }

  /** The pass after the colon: the value goes into the slot of that name, which may hold an earlier value. */
  ghost function ReadNamed(scan: ScanDouble, doc: string, pos: nat, depth: nat, es: seq<Entry>, key: string): (r: Pass)
    requires pos <= |doc|
    ensures r.Inside(pos, |doc|)
    decreases |doc| - pos, 2
  {
    if |key| >= KEY_LENGTH_LIMIT then Stop(Threw(KeyTooLong))
    else
      match ReadValue(scan, doc, pos, depth + 1, Get(es, Name(key)))
      case Threw(x) => Stop(Threw(x))
      case Fail(p, v, e) => Stop(Fail(Recover(doc, p, ObjectEnd), Obj(Put(es, Name(key), v)), e))
      case Ok(p, v) => AfterMember(doc, p, Put(es, Name(key), v))
  }

  /** `parse` without comment collection: the root value, read with one node on the stack. */
  ghost function Parse(scan: ScanDouble, doc: string, root: Value): Step {
    ReadValue(scan, doc, 0, 1, root)
  }
}
