/**
 The JSON value tree (`Json::Value`) and the ordered map behind its arrays and objects.

 A `std::map` is represented by its in-order sequence of entries, so that iteration,
 lower_bound and lexicographic comparison read as they do in the library.  Text is a
 `string` whose characters stand for bytes.
 */
module JsonValue {
  /** `Value::CZString`: an array index or a member name.  One map never mixes the two. */
  datatype Key = Index(n: nat) | Name(s: string)

  datatype Entry = Entry(key: Key, value: Value)

  /** The constructors follow the order of `enum ValueType`, except that they carry payloads. */
  datatype Value =
    | Null
    | Int(i: int)
    | UInt(u: nat)
    | Real(r: real)
    | Str(s: string)
    | Bool(b: bool)
    | Arr(entries: seq<Entry>)
    | Obj(entries: seq<Entry>)

  const MAX_INT := 0x7FFF_FFFF
  const MAX_LARGEST_INT := 0x7FFF_FFFF_FFFF_FFFF
  const MIN_LARGEST_INT := -0x8000_0000_0000_0000
  const MAX_LARGEST_UINT := 0xFFFF_FFFF_FFFF_FFFF
  const KEY_LENGTH_LIMIT := 0x4000_0000
  const ARRAY_INDEX_MODULUS := 0x1_0000_0000

  /** memcmp over the common length, then the shorter string first. */
  predicate BytesLess(a: string, b: string) {
    if b == "" then false
    else if a == "" then true
    else if a[0] != b[0] then a[0] < b[0]
    else BytesLess(a[1..], b[1..])
  }

  predicate KeyLess(a: Key, b: Key) {
    match (a, b)
    case (Index(m), Index(n)) => m < n
    case (Name(s), Name(t)) => BytesLess(s, t)
    case (Index(_), Name(_)) => true
    case (Name(_), Index(_)) => false
  }

  lemma {:induction false} BytesLessTotal(a: string, b: string)
    ensures BytesLess(a, b) ==> !BytesLess(b, a) && a != b
    ensures BytesLess(a, b) || a == b || BytesLess(b, a)
  {
    if a != "" && b != "" && a[0] == b[0] {
      BytesLessTotal(a[1..], b[1..]);
      assert a == [a[0]] + a[1..] && b == [b[0]] + b[1..];
    }
  }

  lemma {:induction false} BytesLessTransitive(a: string, b: string, c: string)
    requires BytesLess(a, b) && BytesLess(b, c)
    ensures BytesLess(a, c)
  {
    if a != "" && a[0] == b[0] == c[0] {
      BytesLessTransitive(a[1..], b[1..], c[1..]);
    }
  }

  /** The length of what two sequences have in common at their beginning. */
  function CommonPrefix<T(==)>(a: seq<T>, b: seq<T>): (k: nat)
    ensures k <= |a| && k <= |b| && a[..k] == b[..k]
    ensures k < |a| && k < |b| ==> a[k] != b[k]
  {
    if a == [] || b == [] || a[0] != b[0] then 0
    else
      assert a == [a[0]] + a[1..] && b == [b[0]] + b[1..];
      1 + CommonPrefix(a[1..], b[1..])
  }

  /** A string is below another exactly if the first byte in which they differ is, or if it is a proper prefix. */
  lemma {:induction false} BytesLessExactly(a: string, b: string)
    ensures var k := CommonPrefix(a, b);
            BytesLess(a, b) <==> k < |b| && (k == |a| || a[k] < b[k])
  {
    if a != "" && b != "" && a[0] == b[0] {
      BytesLessExactly(a[1..], b[1..]);
    }
  }

  /** The key order is a strict total order, which is what `std::map` asks of it. */
  lemma KeyLessTotal(a: Key, b: Key)
    ensures KeyLess(a, b) ==> !KeyLess(b, a) && a != b
    ensures KeyLess(a, b) || a == b || KeyLess(b, a)
  {
    if a.Name? && b.Name? {
      BytesLessTotal(a.s, b.s);
    }
  }

  lemma KeyLessTransitive(a: Key, b: Key, c: Key)
    requires KeyLess(a, b) && KeyLess(b, c)
    ensures KeyLess(a, c)
  {
    if a.Name? && b.Name? && c.Name? {
      BytesLessTransitive(a.s, b.s, c.s);
    }
  }

  /** The invariant of `std::map`: keys strictly increase. */
  ghost predicate Sorted(es: seq<Entry>) {
    forall i, j :: 0 <= i < j < |es| ==> KeyLess(es[i].key, es[j].key)
  }

  /** `lower_bound`: the first position whose key is not below `key`. */
  function LowerBound(es: seq<Entry>, key: Key): (p: nat)
    ensures p <= |es|
    ensures forall i :: 0 <= i < p ==> KeyLess(es[i].key, key)
    ensures p < |es| ==> !KeyLess(es[p].key, key)
  {
    if es == [] || !KeyLess(es[0].key, key) then 0 else 1 + LowerBound(es[1..], key)
  }

  predicate Has(es: seq<Entry>, key: Key) {
    var p := LowerBound(es, key);
    p < |es| && es[p].key == key
  }

  /** `(*this)[key]` read through the const overload, `nullSingleton()` where the key is absent. */
  function Get(es: seq<Entry>, key: Key): Value {
    var p := LowerBound(es, key);
    if p < |es| && es[p].key == key then es[p].value else Null
  }

  /** The map after `(*this)[key] = value`. */
  function Put(es: seq<Entry>, key: Key, value: Value): seq<Entry> {
    var p := LowerBound(es, key);
    if p < |es| && es[p].key == key
    then es[p := Entry(key, value)]
    else es[..p] + [Entry(key, value)] + es[p..]
  }

  /** The map after `erase(key)`. */
  function Erase(es: seq<Entry>, key: Key): seq<Entry> {
    var p := LowerBound(es, key);
    if p < |es| && es[p].key == key then es[..p] + es[p+1..] else es
  }

  lemma LowerBoundUnique(es: seq<Entry>, key: Key, p: nat)
    requires Sorted(es) && p <= |es|
    requires p > 0 ==> KeyLess(es[p-1].key, key)
    requires p < |es| ==> !KeyLess(es[p].key, key)
    ensures LowerBound(es, key) == p
  {
    var q := LowerBound(es, key);
    if q < p {
      if q < p - 1 {
        KeyLessTransitive(es[q].key, es[p-1].key, key);
      }
    } else if p < q {
    }
  }

  /** Insertion keeps the map sorted; afterwards exactly `key` has changed. */
  lemma PutSorted(es: seq<Entry>, key: Key, value: Value)
    requires Sorted(es)
    ensures Sorted(Put(es, key, value))
    ensures forall e :: e in Put(es, key, value) ==> e in es || e == Entry(key, value)
  {
    var p := LowerBound(es, key);
    var r := Put(es, key, value);
    if !(p < |es| && es[p].key == key) {
      forall i, j | 0 <= i < j < |r| ensures KeyLess(r[i].key, r[j].key) {
        if p < |es| {
          KeyLessTotal(es[p].key, key);
          if i == p && j > p + 1 {
            KeyLessTransitive(key, es[p].key, es[j-1].key);
          }
        }
      }
    }
  }

  /** A key above all others is appended. */
  lemma PutLast(es: seq<Entry>, key: Key, value: Value)
    requires forall i :: 0 <= i < |es| ==> KeyLess(es[i].key, key)
    ensures LowerBound(es, key) == |es| && !Has(es, key)
    ensures Put(es, key, value) == es + [Entry(key, value)]
  {
    assert LowerBound(es, key) == |es|;
  }

  /** The entries of an array without holes. */
  ghost predicate Dense(es: seq<Entry>) {
    forall i :: 0 <= i < |es| ==> es[i].key == Index(i)
  }

  /** The next index of a dense array is appended, and the array stays dense. */
  lemma PutDense(es: seq<Entry>, value: Value)
    requires Dense(es)
    ensures LowerBound(es, Index(|es|)) == |es|
    ensures Put(es, Index(|es|), value) == es + [Entry(Index(|es|), value)]
    ensures Dense(Put(es, Index(|es|), value))
  {
    PutLast(es, Index(|es|), value);
  }

  /** `Value::size()` of an array: the highest index plus one, in 32-bit arithmetic. */
  function ArraySize(es: seq<Entry>): (n: nat) {
    if es == [] then 0
    else match es[|es|-1].key
      case Index(n) => (n + 1) % ARRAY_INDEX_MODULUS
      case Name(_) => 0
  }

  /** Array entries are indexed, object entries are named. */
  ghost predicate Indexed(es: seq<Entry>) {
    forall i :: 0 <= i < |es| ==> es[i].key.Index? && es[i].key.n < ARRAY_INDEX_MODULUS
  }

  ghost predicate Named(es: seq<Entry>) {
    forall i :: 0 <= i < |es| ==> es[i].key.Name? && |es[i].key.s| < KEY_LENGTH_LIMIT
  }

  /** What every tree built through the library satisfies: payloads fit their C++ types. */
  ghost predicate Valid(v: Value) {
    match v
    case Int(i) => MIN_LARGEST_INT <= i <= MAX_LARGEST_INT
    case UInt(u) => u <= MAX_LARGEST_UINT
    case Arr(es) => Sorted(es) && Indexed(es) && (forall i :: 0 <= i < |es| ==> Valid(es[i].value))
    case Obj(es) => Sorted(es) && Named(es) && (forall i :: 0 <= i < |es| ==> Valid(es[i].value))
    case _ => true
  }

  /** No double anywhere in the tree. */
  ghost predicate DoubleFree(v: Value) {
    match v
    case Real(_) => false
    case Arr(es) => forall i :: 0 <= i < |es| ==> DoubleFree(es[i].value)
    case Obj(es) => forall i :: 0 <= i < |es| ==> DoubleFree(es[i].value)
    case _ => true
  }

  /** Nesting depth; a scalar counts one. */
  function Height(v: Value): (h: nat)
    ensures h >= 1
    decreases v, 1
  {
    match v
    case Arr(es) => 1 + EntriesHeight(es)
    case Obj(es) => 1 + EntriesHeight(es)
    case _ => 1
  }

  function EntriesHeight(es: seq<Entry>): nat
    decreases es, 0
  {
    if es == [] then 0
    else
      assert es[0].value < es[0];
      var first, rest := Height(es[0].value), EntriesHeight(es[1..]);
      if first > rest then first else rest
  }
}
