/**
 `Value::operator<` and `Value::operator==`, and the proof that the first is a strict
 total order whose equivalence is the second.
 */
module JsonOrder {
  import opened JsonValue

  /** The position in `enum ValueType`. */
  function Tag(v: Value): nat {
    match v
    case Null => 0
    case Int(_) => 1
    case UInt(_) => 2
    case Real(_) => 3
    case Str(_) => 4
    case Bool(_) => 5
    case Arr(_) => 6
    case Obj(_) => 7
  }

  function Weight(v: Value): (w: nat)
    ensures w >= 1
    decreases v, 1
  {
    match v
    case Arr(es) => 1 + EntriesWeight(es)
    case Obj(es) => 1 + EntriesWeight(es)
    case _ => 1
  }

  function EntriesWeight(es: seq<Entry>): nat
    decreases es, 0
  {
    if es == [] then 0
    else
      assert es[0].value < es[0];
      1 + Weight(es[0].value) + EntriesWeight(es[1..])
  }

  /** Conversion of a size difference to the 32-bit `int delta`. */
  function AsInt32(n: int): int {
    var m := n % 0x1_0000_0000;
    if m < 0x8000_0000 then m else m - 0x1_0000_0000
  }

  /** `Value::operator<`. */
  predicate Less(a: Value, b: Value)
    decreases Weight(a) + Weight(b), 1, 0
  {
    if Tag(a) != Tag(b) then Tag(a) < Tag(b)
    else match a
      case Null => false
      case Int(i) => i < b.i
      case UInt(u) => u < b.u
      case Real(r) => r < b.r
      case Str(s) => BytesLess(s, b.s)
      case Bool(x) => !x && b.b
      case Arr(es) => MapLess(es, b.entries)
      case Obj(es) => MapLess(es, b.entries)
  }

  /** Maps compare by size first. */
  predicate MapLess(x: seq<Entry>, y: seq<Entry>)
    decreases EntriesWeight(x) + EntriesWeight(y), 1, 0
  {
    var delta := AsInt32(|x| - |y|);
    if delta != 0 then delta < 0 else EntriesLess(x, y)
  }

  /** `std::lexicographical_compare` over the entries. */
  predicate EntriesLess(x: seq<Entry>, y: seq<Entry>)
    decreases EntriesWeight(x) + EntriesWeight(y), 0, |x|
  {
    if y == [] then false
    else if x == [] then true
    else if PairLess(x[0], y[0]) then true
    else if PairLess(y[0], x[0]) then false
    else EntriesLess(x[1..], y[1..])
  }

  /** `std::pair::operator<`. */
  predicate PairLess(p: Entry, q: Entry)
    decreases Weight(p.value) + Weight(q.value), 2, 0
  {
    KeyLess(p.key, q.key) || (!KeyLess(q.key, p.key) && Less(p.value, q.value))
  }

  /** `Value::operator==`. */
  predicate Equal(a: Value, b: Value)
    decreases a, 1, 0
  {
    if Tag(a) != Tag(b) then false
    else match a
      case Null => true
      case Int(i) => i == b.i
      case UInt(u) => u == b.u
      case Real(r) => r == b.r
      case Str(s) => |s| == |b.s| && s == b.s
      case Bool(x) => x == b.b
      case Arr(es) => |es| == |b.entries| && EntriesEqual(es, b.entries)
      case Obj(es) => |es| == |b.entries| && EntriesEqual(es, b.entries)
  }

  predicate EntriesEqual(x: seq<Entry>, y: seq<Entry>)
    requires |x| == |y|
    decreases x, 0, 0
  {
    x == [] ||
    (assert x[0].value < x[0];
     x[0].key == y[0].key && Equal(x[0].value, y[0].value) && EntriesEqual(x[1..], y[1..]))
  }

  /** Every map in the tree has fewer than 2^31 entries, so that `delta` is exact. */
  ghost predicate Small(v: Value) {
    match v
    case Arr(es) => |es| < 0x8000_0000 && forall i :: 0 <= i < |es| ==> Small(es[i].value)
    case Obj(es) => |es| < 0x8000_0000 && forall i :: 0 <= i < |es| ==> Small(es[i].value)
    case _ => true
  }

  ghost predicate SmallChildren(es: seq<Entry>) {
    forall i :: 0 <= i < |es| ==> Small(es[i].value)
  }

  lemma {:induction false} EqualIsIdentity(a: Value, b: Value)
    ensures Equal(a, b) <==> a == b
    decreases a, 1
  {
    if (a.Arr? && b.Arr?) || (a.Obj? && b.Obj?) {
      if |a.entries| == |b.entries| {
        EntriesEqualIsIdentity(a.entries, b.entries);
      }
    }
  }

  lemma {:induction false} EntriesEqualIsIdentity(x: seq<Entry>, y: seq<Entry>)
    requires |x| == |y|
    ensures EntriesEqual(x, y) <==> x == y
    decreases x, 0
  {
    if x != [] {
      assert x[0].value < x[0];
      EqualIsIdentity(x[0].value, y[0].value);
      EntriesEqualIsIdentity(x[1..], y[1..]);
      assert x == [x[0]] + x[1..] && y == [y[0]] + y[1..];
    }
  }

  /** Exactly one of `a < b`, `a == b`, `b < a`. */
  lemma {:induction false} Trichotomy(a: Value, b: Value)
    requires Small(a) && Small(b)
    ensures Less(a, b) ==> !Less(b, a) && !Equal(a, b)
    ensures Equal(a, b) ==> !Less(a, b) && !Less(b, a)
    ensures Less(a, b) || Equal(a, b) || Less(b, a)
    decreases Weight(a), 1
  {
    EqualIsIdentity(a, b);
    if Tag(a) == Tag(b) {
      match a
      case Str(s) => BytesLessTotal(s, b.s);
      case Arr(es) => MapTrichotomy(es, b.entries);
      case Obj(es) => MapTrichotomy(es, b.entries);
      case _ =>
    }
  }

  lemma {:induction false} MapTrichotomy(x: seq<Entry>, y: seq<Entry>)
    requires SmallChildren(x) && SmallChildren(y)
    requires |x| < 0x8000_0000 && |y| < 0x8000_0000
    ensures MapLess(x, y) ==> !MapLess(y, x) && x != y
    ensures MapLess(x, y) || x == y || MapLess(y, x)
    decreases EntriesWeight(x), 1
  {
    if |x| == |y| {
      EntriesTrichotomy(x, y);
    }
  }

  lemma {:induction false} EntriesTrichotomy(x: seq<Entry>, y: seq<Entry>)
    requires SmallChildren(x) && SmallChildren(y)
    ensures EntriesLess(x, y) ==> !EntriesLess(y, x) && x != y
    ensures EntriesLess(x, y) || x == y || EntriesLess(y, x)
    decreases EntriesWeight(x), 0, |x|
  {
    if x != [] && y != [] {
      PairTrichotomy(x[0], y[0]);
      EntriesTrichotomy(x[1..], y[1..]);
      assert x == [x[0]] + x[1..] && y == [y[0]] + y[1..];
    }
  }

  /** Entries compare by key, and with the same key by value. */
  lemma PairLessExactly(p: Entry, q: Entry)
    ensures PairLess(p, q) <==> KeyLess(p.key, q.key) || (p.key == q.key && Less(p.value, q.value))
  {
    KeyLessTotal(p.key, q.key);
    KeyLessTotal(p.key, p.key);
  }

  lemma {:induction false} PairTrichotomy(p: Entry, q: Entry)
    requires Small(p.value) && Small(q.value)
    ensures PairLess(p, q) ==> !PairLess(q, p) && p != q
    ensures PairLess(p, q) || p == q || PairLess(q, p)
    decreases Weight(p.value), 2
  {
    KeyLessTotal(p.key, q.key);
    Trichotomy(p.value, q.value);
    EqualIsIdentity(p.value, q.value);
  }

  /** Sequences of entries compare by the first entry in which they differ, and a proper prefix comes first. */
  lemma {:induction false} EntriesLessExactly(x: seq<Entry>, y: seq<Entry>)
    requires SmallChildren(x) && SmallChildren(y)
    ensures var k := CommonPrefix(x, y);
            EntriesLess(x, y) <==> k < |y| && (k == |x| || PairLess(x[k], y[k]))
    decreases |x|
  {
    if x != [] && y != [] {
      PairTrichotomy(x[0], y[0]);
      if x[0] == y[0] {
        EntriesLessExactly(x[1..], y[1..]);
      }
    }
  }

  /** Maps compare by size, and with the same size by the first entry in which they differ. */
  lemma MapLessExactly(x: seq<Entry>, y: seq<Entry>)
    requires SmallChildren(x) && SmallChildren(y) && |x| < 0x8000_0000 && |y| < 0x8000_0000
    ensures var k := CommonPrefix(x, y);
            MapLess(x, y) <==> |x| < |y| || (|x| == |y| && k < |x| && PairLess(x[k], y[k]))
  {
    EntriesLessExactly(x, y);
  }

  /** What `operator<` is: null first, then the types in the order of their tags, and within a type the order of numbers, bytes and maps. */
  lemma LessExactly(a: Value, b: Value)
    ensures a.Null? ==> (Less(a, b) <==> !b.Null?)
    ensures a.Int? ==> (Less(a, b) <==> if b.Int? then a.i < b.i else !b.Null?)
    ensures a.UInt? ==> (Less(a, b) <==> if b.UInt? then a.u < b.u else !(b.Null? || b.Int?))
    ensures a.Real? ==> (Less(a, b) <==> if b.Real? then a.r < b.r else b.Str? || b.Bool? || b.Arr? || b.Obj?)
    ensures a.Str? ==> (Less(a, b) <==> if b.Str? then BytesLess(a.s, b.s) else b.Bool? || b.Arr? || b.Obj?)
    ensures a.Bool? ==> (Less(a, b) <==> if b.Bool? then (a, b) == (Bool(false), Bool(true)) else b.Arr? || b.Obj?)
    ensures a.Arr? ==> (Less(a, b) <==> if b.Arr? then MapLess(a.entries, b.entries) else b.Obj?)
    ensures a.Obj? ==> (Less(a, b) <==> b.Obj? && MapLess(a.entries, b.entries))
  {
  }

  lemma Remainder(a: int, q: int, r: int)
    requires a == q * 0x1_0000_0000 + r && 0 <= r < 0x1_0000_0000
    ensures a % 0x1_0000_0000 == r && AsInt32(a) == if r < 0x8000_0000 then r else r - 0x1_0000_0000
  {
  }

  /** Opposite differences are both negative only half way round. */
  lemma DeltasOpposite(a: int)
    ensures AsInt32(a) < 0 && AsInt32(-a) < 0 <==> a % 0x1_0000_0000 == 0x8000_0000
    ensures AsInt32(a) == 0 <==> AsInt32(-a) == 0
    ensures AsInt32(a) == 0 ==> a % 0x1_0000_0000 == 0
  {
    hide AsInt32;
    var q, r := a / 0x1_0000_0000, a % 0x1_0000_0000;
    if r == 0 {
      Remainder(-a, -q, 0);
    } else {
      Remainder(-a, -q - 1, 0x1_0000_0000 - r);
    }
    Remainder(a, q, r);
  }

  /**
   Without the size bound `delta` wraps around and the order breaks in two ways.  The first is
   its asymmetry: two maps are each below the other when their sizes differ by 2^31 modulo 2^32.
   */
  lemma BothBelowExactly(x: seq<Entry>, y: seq<Entry>)
    requires SmallChildren(x) && SmallChildren(y)
    ensures MapLess(x, y) && MapLess(y, x) <==> (|x| - |y|) % 0x1_0000_0000 == 0x8000_0000
  {
    EntriesTrichotomy(x, y);
    DeltasOpposite(|x| - |y|);
    hide AsInt32, EntriesLess;
  }

  /** Wrapped differences add up modulo 2^32. */
  lemma DeltasAdd(a: int, b: int)
    ensures var s := AsInt32(a) + AsInt32(b);
            AsInt32(a + b) == if s < -0x8000_0000 then s + 0x1_0000_0000 else if s >= 0x8000_0000 then s - 0x1_0000_0000 else s
    ensures -0x8000_0000 <= AsInt32(a) < 0x8000_0000 && -0x8000_0000 <= AsInt32(b) < 0x8000_0000
  {
    var p, q := a / 0x1_0000_0000, b / 0x1_0000_0000;
    assert a == p * 0x1_0000_0000 + a % 0x1_0000_0000 && b == q * 0x1_0000_0000 + b % 0x1_0000_0000;
    assert (a + b) % 0x1_0000_0000 == (a % 0x1_0000_0000 + b % 0x1_0000_0000) % 0x1_0000_0000;
  }

  lemma {:induction false} EntriesTransitive(x: seq<Entry>, y: seq<Entry>, z: seq<Entry>)
    requires SmallChildren(x) && SmallChildren(y) && SmallChildren(z)
    requires EntriesLess(x, y) && EntriesLess(y, z)
    ensures EntriesLess(x, z)
    decreases EntriesWeight(x), 0, |x|
  {
    if x != [] {
      PairTrichotomy(x[0], y[0]);
      PairTrichotomy(y[0], z[0]);
      PairTrichotomy(x[0], z[0]);
      if PairLess(x[0], y[0]) && PairLess(y[0], z[0]) {
        PairTransitive(x[0], y[0], z[0]);
      } else if x[0] == y[0] == z[0] {
        EntriesTransitive(x[1..], y[1..], z[1..]);
      }
    }
  }

  /**
   The second is its transitivity, which holds exactly when the two deltas add up without
   wrapping around, or wrap around to zero and the entries are in order.
   */
  lemma TransitiveExactly(x: seq<Entry>, y: seq<Entry>, z: seq<Entry>)
    requires SmallChildren(x) && SmallChildren(y) && SmallChildren(z)
    requires MapLess(x, y) && MapLess(y, z)
    ensures var s := AsInt32(|x| - |y|) + AsInt32(|y| - |z|);
            MapLess(x, z) <==> s >= -0x8000_0000 || (s == -0x1_0000_0000 && EntriesLess(x, z))
  {
    hide EntriesLess, AsInt32;
    DeltasAdd(|x| - |y|, |y| - |z|);
    if AsInt32(|x| - |y|) == 0 && AsInt32(|y| - |z|) == 0 {
      EntriesTransitive(x, y, z);
    }
  }

  /** An array of `n` nulls. */
  function Nulls(n: nat): seq<Entry> {
    seq(n, i requires 0 <= i => Entry(Index(i), Null))
  }

  lemma NullsBySize(m: nat, n: nat)
    requires AsInt32(m - n) != 0
    ensures MapLess(Nulls(m), Nulls(n)) <==> AsInt32(m - n) < 0
  {
    hide EntriesLess, AsInt32;
    assert |Nulls(m)| == m && |Nulls(n)| == n;
  }

  /** Three arrays in a circle, no two of which are each below the other. */
  lemma SizesInACircle()
    ensures var x, y, z := Nulls(0), Nulls(0x7FFF_FFFF), Nulls(0x8000_0001);
            && MapLess(x, y) && MapLess(y, z) && MapLess(z, x)
            && !MapLess(y, x) && !MapLess(z, y) && !MapLess(x, z)
  {
    NullsBySize(0, 0x7FFF_FFFF);
    NullsBySize(0x7FFF_FFFF, 0);
    NullsBySize(0x7FFF_FFFF, 0x8000_0001);
    NullsBySize(0x8000_0001, 0x7FFF_FFFF);
    NullsBySize(0, 0x8000_0001);
    NullsBySize(0x8000_0001, 0);
    hide MapLess, Nulls;
  }

  lemma {:induction false} Transitive(a: Value, b: Value, c: Value)
    requires Small(a) && Small(b) && Small(c)
    requires Less(a, b) && Less(b, c)
    ensures Less(a, c)
    decreases Weight(a), 1
  {
    if Tag(a) == Tag(b) == Tag(c) {
      match a
      case Str(s) => BytesLessTransitive(s, b.s, c.s);
      case Arr(es) => MapTransitive(es, b.entries, c.entries);
      case Obj(es) => MapTransitive(es, b.entries, c.entries);
      case _ =>
    }
  }

  lemma {:induction false} MapTransitive(x: seq<Entry>, y: seq<Entry>, z: seq<Entry>)
    requires SmallChildren(x) && SmallChildren(y) && SmallChildren(z)
    requires |x| < 0x8000_0000 && |y| < 0x8000_0000 && |z| < 0x8000_0000
    requires MapLess(x, y) && MapLess(y, z)
    ensures MapLess(x, z)
    decreases EntriesWeight(x), 1
  {
    if |x| == |y| == |z| {
      EntriesTransitive(x, y, z);
    }
  }

  lemma {:induction false} PairTransitive(p: Entry, q: Entry, r: Entry)
    requires Small(p.value) && Small(q.value) && Small(r.value)
    requires PairLess(p, q) && PairLess(q, r)
    ensures PairLess(p, r)
    decreases Weight(p.value), 2
  {
    KeyLessTotal(p.key, q.key);
    KeyLessTotal(q.key, r.key);
    KeyLessTotal(p.key, r.key);
    if KeyLess(p.key, q.key) && KeyLess(q.key, r.key) {
      KeyLessTransitive(p.key, q.key, r.key);
    } else if p.key == q.key == r.key {
      Transitive(p.value, q.value, r.value);
    }
  }
}
