/**
 What the reader returns, on any document at all.
 */
module JsonParsed {
  import opened JsonValue
  import Strings = JsonString
  import opened JsonToken
  import opened JsonGrammar
  import opened JsonCanonical
  import opened JsonLexeme
  import opened JsonFastWriter
  import opened JsonRoundTrip

  /** Canonical and no higher than `h`. */
  ghost predicate Fits(v: Value, h: int) {
    Canonical(v) && Height(v) <= h
  }

  ghost predicate AllFit(es: seq<Entry>, h: int) {
    forall i :: 0 <= i < |es| ==> Fits(es[i].value, h)
  }

  lemma {:induction false} HeightOfAll(es: seq<Entry>, h: nat)
    requires AllFit(es, h)
    ensures EntriesHeight(es) <= h
  {
    if es != [] {
      HeightOfAll(es[1..], h);
    }
  }

  lemma NumberFits(scan: ScanDouble, text: string)
    requires text != "" && DecodeNumber(scan, text).Some?
    ensures Fits(DecodeNumber(scan, text).value, 1)
  {
  }

  /**
   A value read successfully is in normal form and within the stack limit, whatever
   document it came from.  The document is assumed to fit a 32-bit address space.
   */
  lemma {:induction false} ReadFits(scan: ScanDouble, doc: string, pos: nat, depth: nat, current: Value)
    requires pos <= |doc| < ARRAY_INDEX_MODULUS && ReadValue(scan, doc, pos, depth, current).Ok?
    ensures Fits(ReadValue(scan, doc, pos, depth, current).val, STACK_LIMIT + 1 - depth)
    decreases |doc| - pos, 1
  {
    var t := NextToken(doc, pos);
    if t.kind == ObjectBegin {
      MembersFit(scan, doc, t.end, depth, [], "");
    } else if t.kind == ArrayBegin {
      var p := SkipSpaces(doc, t.end);
      if !(p < |doc| && doc[p] == ']') {
        ElementsFit(scan, doc, p, depth, []);
      }
    } else if t.kind == NumberToken {
      NumberFits(scan, Text(doc, t));
    }
  }

  lemma {:induction false} ElementsFit(scan: ScanDouble, doc: string, pos: nat, depth: nat, es: seq<Entry>)
    requires pos <= |doc| < ARRAY_INDEX_MODULUS && depth <= STACK_LIMIT && ReadElements(scan, doc, pos, depth, es).Ok?
    requires Dense(es) && |es| <= pos && AllFit(es, STACK_LIMIT - depth)
    ensures Fits(ReadElements(scan, doc, pos, depth, es).val, STACK_LIMIT + 1 - depth)
    decreases |doc| - pos, 3
  {
    var pass := ReadElement(scan, doc, pos, depth, es);
    ElementFits(scan, doc, pos, depth, es);
    if pass.More? {
      ElementsFit(scan, doc, pass.pos, depth, pass.entries);
    }
  }

  lemma {:induction false} ElementFits(scan: ScanDouble, doc: string, pos: nat, depth: nat, es: seq<Entry>)
    requires pos <= |doc| < ARRAY_INDEX_MODULUS && depth <= STACK_LIMIT
    requires Dense(es) && |es| <= pos && AllFit(es, STACK_LIMIT - depth)
    ensures match ReadElement(scan, doc, pos, depth, es)
            case Stop(Ok(_, v)) => Fits(v, STACK_LIMIT + 1 - depth)
            case Stop(_) => true
            case More(p, es') => Dense(es') && |es'| <= p && AllFit(es', STACK_LIMIT - depth)
    decreases |doc| - pos, 2
  {
    hide ReadValue;
    var r := ReadValue(scan, doc, pos, depth + 1, Null);
    if r.Ok? {
      ReadFits(scan, doc, pos, depth + 1, Null);
      PutDense(es, r.val);
      HeightOfAll(Put(es, Index(|es|), r.val), STACK_LIMIT - depth);
    }
  }

  lemma {:induction false} MembersFit(scan: ScanDouble, doc: string, pos: nat, depth: nat, es: seq<Entry>, name: string)
    requires pos <= |doc| < ARRAY_INDEX_MODULUS && depth <= STACK_LIMIT && ReadMembers(scan, doc, pos, depth, es, name).Ok?
    requires Sorted(es) && Named(es) && AllFit(es, STACK_LIMIT - depth)
    ensures Fits(ReadMembers(scan, doc, pos, depth, es, name).val, STACK_LIMIT + 1 - depth)
    decreases |doc| - pos, 3
  {
    HeightOfAll(es, STACK_LIMIT - depth);
    var t := NextToken(doc, pos);
    if !(t.kind == ObjectEnd && name == "") {
      var key := Strings.DecodeQuoted(Text(doc, t)).value;
      var pass := ReadMember(scan, doc, t.end, depth, es, key);
      MemberFits(scan, doc, t.end, depth, es, key);
      if pass.More? {
        MembersFit(scan, doc, pass.pos, depth, pass.entries, key);
      }
    }
  }

  lemma PutFits(es: seq<Entry>, key: string, value: Value, h: nat)
    requires Sorted(es) && Named(es) && AllFit(es, h) && Fits(value, h) && |key| < KEY_LENGTH_LIMIT
    ensures var es' := Put(es, Name(key), value);
            Sorted(es') && Named(es') && AllFit(es', h) && Fits(Obj(es'), h + 1)
  {
    var es' := Put(es, Name(key), value);
    PutSorted(es, Name(key), value);
    forall i | 0 <= i < |es'|
      ensures es'[i].key.Name? && |es'[i].key.s| < KEY_LENGTH_LIMIT && Fits(es'[i].value, h)
    {
      assert es'[i] in es';
    }
    HeightOfAll(es', h);
  }

  lemma {:induction false} MemberFits(scan: ScanDouble, doc: string, pos: nat, depth: nat, es: seq<Entry>, key: string)
    requires pos <= |doc| < ARRAY_INDEX_MODULUS && depth <= STACK_LIMIT
    requires Sorted(es) && Named(es) && AllFit(es, STACK_LIMIT - depth)
    ensures match ReadMember(scan, doc, pos, depth, es, key)
            case Stop(Ok(_, v)) => Fits(v, STACK_LIMIT + 1 - depth)
            case Stop(_) => true
            case More(_, es') => Sorted(es') && Named(es') && AllFit(es', STACK_LIMIT - depth)
    decreases |doc| - pos, 2
  {
    hide ReadValue, Put, Sorted, Named, AllFit;
    var colon := ReadToken(doc, pos);
    if colon.kind == MemberSeparator && |key| < KEY_LENGTH_LIMIT {
      var r := ReadValue(scan, doc, colon.end, depth + 1, Get(es, Name(key)));
      if r.Ok? {
        ReadFits(scan, doc, colon.end, depth + 1, Get(es, Name(key)));
        PutFits(es, key, r.val, STACK_LIMIT - depth);
      }
    }
  }

  lemma {:induction false} CanonicalIsValid(v: Value)
    requires Canonical(v)
    ensures Valid(v)
  {
    match v
    case Arr(es) =>
      DenseSorted(es);
      forall i | 0 <= i < |es| ensures Valid(es[i].value) {
        CanonicalIsValid(es[i].value);
      }
    case Obj(es) =>
      forall i | 0 <= i < |es| ensures Valid(es[i].value) {
        CanonicalIsValid(es[i].value);
      }
    case _ =>
  }

  /** Every successful parse of any document without doubles is a fixed point: writing the tree and parsing again restores it. */
  lemma ParsedRoundTrip(scan: ScanDouble, fmt: DoubleText, doc: string, root: Value, v: Value, next: Value)
    requires |doc| < ARRAY_INDEX_MODULUS
    requires Parse(scan, doc, root).Ok? && v == Parse(scan, doc, root).val && DoubleFree(v)
    ensures Normal(v) == v && Height(v) <= STACK_LIMIT
    ensures var r := Parse(scan, Compact(fmt, v), next); r.Ok? && r.val == v
  {
    ReadFits(scan, doc, 0, 1, root);
    CanonicalIsNormal(v);
    CanonicalIsValid(v);
    assert Compact(fmt, v) + "" == Compact(fmt, v);
    CompactRoundTrip(scan, fmt, v, "", next);
  }
}
