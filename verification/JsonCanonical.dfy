/**
 The normal form that parsing gives a tree: integers typed by their magnitude, arrays
 without holes.
 */
module JsonCanonical {
  import opened JsonValue
  import opened JsonNumber

  function Normal(v: Value): Value
    decreases v, 1, 0
  {
    match v
    case Int(i) => Typed(i < 0, if i < 0 then -i else i)
    case UInt(u) => Typed(false, u)
    case Arr(es) => Arr(NormalElements(es, ArraySize(es)))
    case Obj(es) => Obj(NormalMembers(es))
    case _ => v
  }

  /** The first `n` elements, null where the map has a hole. */
  function NormalElements(es: seq<Entry>, n: nat): (r: seq<Entry>)
    ensures |r| == n && Dense(r)
    decreases es, 0, n
  {
    if n == 0 then []
    else NormalElements(es, n - 1) + [Entry(Index(n - 1), NormalElement(es, n - 1))]
  }

  function NormalElement(es: seq<Entry>, i: nat): Value
    decreases es, 0, i
  {
    var p := LowerBound(es, Index(i));
    if p < |es| && es[p].key == Index(i) then
      assert es[p].value < es[p];
      Normal(es[p].value)
    else Null
  }

  function NormalMembers(es: seq<Entry>): (r: seq<Entry>)
    ensures |r| == |es| && forall i :: 0 <= i < |es| ==> r[i].key == es[i].key
    decreases es, 0, 0
  {
    if es == [] then []
    else
      assert es[0].value < es[0];
      [Entry(es[0].key, Normal(es[0].value))] + NormalMembers(es[1..])
  }

  lemma {:induction false} NormalElementsAt(es: seq<Entry>, n: nat, i: nat)
    requires i < n
    ensures NormalElements(es, n)[i].value == Normal(Get(es, Index(i)))
  {
    if i < n - 1 {
      NormalElementsAt(es, n - 1, i);
    }
  }

  lemma {:induction false} NormalMembersAt(es: seq<Entry>, i: nat)
    requires i < |es|
    ensures NormalMembers(es)[i] == Entry(es[i].key, Normal(es[i].value))
  {
    if i > 0 {
      NormalMembersAt(es[1..], i - 1);
    }
  }

  /** Normalising keeps every number, every other scalar, the size and the elements of an array, and the names and the values of an object. */
  lemma NormalKeeps(v: Value)
    ensures v.Int? ==> if v.i <= MAX_INT then Normal(v) == v else Normal(v) == UInt(v.i)
    ensures v.UInt? ==> if v.u <= MAX_INT then Normal(v) == Int(v.u) else Normal(v) == v
    ensures v.Null? || v.Real? || v.Str? || v.Bool? ==> Normal(v) == v
    ensures v.Arr? ==> Normal(v).Arr? && |Normal(v).entries| == ArraySize(v.entries)
    ensures v.Arr? ==> forall i :: 0 <= i < ArraySize(v.entries) ==> Normal(v).entries[i] == Entry(Index(i), Normal(Get(v.entries, Index(i))))
    ensures v.Obj? ==> Normal(v).Obj? && |Normal(v).entries| == |v.entries|
    ensures v.Obj? ==> forall i :: 0 <= i < |v.entries| ==> Normal(v).entries[i] == Entry(v.entries[i].key, Normal(v.entries[i].value))
  {
    match v
    case Arr(es) =>
      forall i | 0 <= i < ArraySize(es) ensures NormalElements(es, ArraySize(es))[i].value == Normal(Get(es, Index(i))) {
        NormalElementsAt(es, ArraySize(es), i);
      }
    case Obj(es) =>
      forall i | 0 <= i < |es| ensures NormalMembers(es)[i] == Entry(es[i].key, Normal(es[i].value)) {
        NormalMembersAt(es, i);
      }
    case _ =>
  }

  /** The trees in normal form. */
  ghost predicate Canonical(v: Value) {
    match v
    case Int(i) => MIN_LARGEST_INT <= i <= MAX_INT
    case UInt(u) => MAX_INT < u <= MAX_LARGEST_UINT
    case Arr(es) => Dense(es) && |es| < ARRAY_INDEX_MODULUS && forall i :: 0 <= i < |es| ==> Canonical(es[i].value)
    case Obj(es) => Sorted(es) && Named(es) && forall i :: 0 <= i < |es| ==> Canonical(es[i].value)
    case _ => true
  }

  /** Every tree the library can build normalises to a canonical one. */
  lemma {:induction false} NormalIsCanonical(v: Value)
    requires Valid(v)
    ensures Canonical(Normal(v))
  {
    match v
    case Arr(es) =>
      var n := ArraySize(es);
      forall i | 0 <= i < n ensures Canonical(NormalElements(es, n)[i].value) {
        NormalElementsAt(es, n, i);
        if Has(es, Index(i)) {
          var p := LowerBound(es, Index(i));
          NormalIsCanonical(es[p].value);
        }
      }
    case Obj(es) =>
      forall i | 0 <= i < |es| ensures Canonical(NormalMembers(es)[i].value) {
        NormalMembersAt(es, i);
        NormalIsCanonical(es[i].value);
      }
    case _ =>
  }

  /** Canonical trees are fixed by normalisation. */
  lemma {:induction false} CanonicalIsNormal(v: Value)
    requires Canonical(v)
    ensures Normal(v) == v
    decreases v, 1
  {
    match v
    case Arr(es) => DenseIsNormal(es);
    case Obj(es) => MembersAreNormal(es);
    case _ =>
  }

  lemma DenseSorted(es: seq<Entry>)
    requires Dense(es)
    ensures Sorted(es)
  {
  }

  lemma {:induction false} DenseIsNormal(es: seq<Entry>)
    requires Dense(es) && forall i :: 0 <= i < |es| ==> Canonical(es[i].value)
    ensures NormalElements(es, |es|) == es
    decreases es, 0
  {
    DenseSorted(es);
    forall i | 0 <= i < |es| ensures NormalElements(es, |es|)[i] == es[i] {
      NormalElementsAt(es, |es|, i);
      LowerBoundUnique(es, Index(i), i);
      assert es[i].value < es[i];
      CanonicalIsNormal(es[i].value);
    }
  }

  lemma {:induction false} MembersAreNormal(es: seq<Entry>)
    requires forall i :: 0 <= i < |es| ==> Canonical(es[i].value)
    ensures NormalMembers(es) == es
    decreases es, 0
  {
    forall i | 0 <= i < |es| ensures NormalMembers(es)[i] == es[i] {
      NormalMembersAt(es, i);
      assert es[i].value < es[i];
      CanonicalIsNormal(es[i].value);
    }
  }

  lemma {:induction false} NormalDoubleFree(v: Value)
    requires DoubleFree(v)
    ensures DoubleFree(Normal(v))
  {
    match v
    case Arr(es) =>
      var n := ArraySize(es);
      forall i | 0 <= i < n ensures DoubleFree(NormalElements(es, n)[i].value) {
        NormalElementsAt(es, n, i);
        if Has(es, Index(i)) {
          NormalDoubleFree(es[LowerBound(es, Index(i))].value);
        }
      }
    case Obj(es) =>
      forall i | 0 <= i < |es| ensures DoubleFree(NormalMembers(es)[i].value) {
        NormalMembersAt(es, i);
        NormalDoubleFree(es[i].value);
      }
    case _ =>
  }
}
