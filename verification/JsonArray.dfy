/**
 `Value` as a mutable array: indexing, `append`, `resize` and `removeIndex`.  An array is a
 map from indices, which may have holes; its callers see a sequence with nulls in the holes.
 Indices and sizes are 32 bits wide.
 */
module JsonArray {
  import opened JsonValue
  import opened Options

  /** The highest index plus one, without wrap-around. */
  function Extent(es: seq<Entry>): nat
    requires Indexed(es)
  {
    if es == [] then 0 else es[|es|-1].key.n + 1
  }

  /** The array as read through the const `operator[]` below its extent. */
  ghost function View(es: seq<Entry>): seq<Value>
    requires Indexed(es)
  {
    seq(Extent(es), i requires 0 <= i => Get(es, Index(i)))
  }

  ghost predicate Map(es: seq<Entry>) {
    Sorted(es) && Indexed(es)
  }

  lemma Found(es: seq<Entry>, i: nat)
    requires Sorted(es) && i < |es|
    ensures LowerBound(es, es[i].key) == i && Has(es, es[i].key) && Get(es, es[i].key) == es[i].value
  {
    KeyLessTotal(es[i].key, es[i].key);
    LowerBoundUnique(es, es[i].key, i);
  }

  lemma FoundEntry(es: seq<Entry>, e: Entry)
    requires Sorted(es) && e in es
    ensures Has(es, e.key) && Get(es, e.key) == e.value
  {
    var i :| 0 <= i < |es| && es[i] == e;
    Found(es, i);
  }

  /** What a map finds are its entries. */
  lemma EntryFound(es: seq<Entry>, k: Key)
    requires Has(es, k)
    ensures Entry(k, Get(es, k)) in es
  {
    assert es[LowerBound(es, k)] in es;
  }

  lemma PutEntries(es: seq<Entry>, key: Key, value: Value)
    ensures Entry(key, value) in Put(es, key, value)
    ensures forall e :: e in es && e.key != key ==> e in Put(es, key, value)
  {
    var p, r := LowerBound(es, key), Put(es, key, value);
    assert r[p] in r;
    forall e | e in es && e.key != key ensures e in r {
      var i :| 0 <= i < |es| && es[i] == e;
      assert r[if i < p || |r| == |es| then i else i + 1] == e;
    }
  }

  lemma EraseSorted(es: seq<Entry>, key: Key)
    requires Sorted(es)
    ensures Sorted(Erase(es, key))
  {
  }

  lemma EraseEntries(es: seq<Entry>, key: Key)
    requires Sorted(es) && Has(es, key)
    ensures forall e :: e in Erase(es, key) <==> e in es && e.key != key
  {
    hide Sorted;
    var p, r := LowerBound(es, key), Erase(es, key);
    forall e | e in es && e.key != key ensures e in r {
      var i :| 0 <= i < |es| && es[i] == e;
      assert r[if i < p then i else i - 1] == e;
    }
    forall e | e in r ensures e in es && e.key != key {
      var i :| 0 <= i < |r| && r[i] == e;
      var j := if i < p then i else i + 1;
      assert es[j] == e;
      Found(es, j);
    }
  }

  /** Assignment through `operator[]` changes what is found at its key and nothing else. */
  lemma PutLookup(es: seq<Entry>, key: Key, value: Value, k: Key)
    requires Sorted(es)
    ensures Has(Put(es, key, value), k) <==> k == key || Has(es, k)
    ensures Get(Put(es, key, value), k) == if k == key then value else Get(es, k)
  {
    hide Sorted, Put;
    var r := Put(es, key, value);
    PutSorted(es, key, value);
    PutEntries(es, key, value);
    if k == key {
      FoundEntry(r, Entry(key, value));
    } else if Has(es, k) {
      EntryFound(es, k);
      FoundEntry(r, Entry(k, Get(es, k)));
    } else if Has(r, k) {
      EntryFound(r, k);
      FoundEntry(es, Entry(k, Get(r, k)));
    }
  }

  lemma EraseLookup(es: seq<Entry>, key: Key, k: Key)
    requires Sorted(es)
    ensures Sorted(Erase(es, key))
    ensures Has(Erase(es, key), k) <==> k != key && Has(es, k)
    ensures Get(Erase(es, key), k) == if k == key then Null else Get(es, k)
  {
    var r := Erase(es, key);
    EraseSorted(es, key);
    if Has(es, key) {
      EraseEntries(es, key);
      if Has(r, k) {
        EntryFound(r, k);
        FoundEntry(es, Entry(k, Get(r, k)));
      } else if k != key && Has(es, k) {
        EntryFound(es, k);
        FoundEntry(r, Entry(k, Get(es, k)));
      }
    }
  }

  lemma MapPut(es: seq<Entry>, n: nat, value: Value)
    requires Map(es) && n < ARRAY_INDEX_MODULUS
    ensures Map(Put(es, Index(n), value))
  {
    hide Sorted, Put, LowerBound;
    PutSorted(es, Index(n), value);
    var r := Put(es, Index(n), value);
    assert forall i :: 0 <= i < |r| ==> r[i] in r;
  }

  lemma EraseMap(es: seq<Entry>, n: nat)
    requires Map(es)
    ensures Map(Erase(es, Index(n)))
  {
    hide Sorted, LowerBound;
    EraseSorted(es, Index(n));
  }

  /** The extent in terms of what is found. */
  lemma ExtentFound(es: seq<Entry>)
    requires Map(es)
    ensures forall k {:trigger Index(k)} :: k >= Extent(es) ==> !Has(es, Index(k))
    ensures forall k {:trigger Index(k)} :: k >= Extent(es) ==> Get(es, Index(k)) == Null
    ensures Extent(es) > 0 ==> Has(es, Index(Extent(es) - 1))
    ensures Extent(es) <= ARRAY_INDEX_MODULUS
  {
    if es != [] {
      Found(es, |es| - 1);
    }
  }

  lemma ExtentUnique(es: seq<Entry>, n: nat)
    requires Map(es) && (n > 0 ==> Has(es, Index(n - 1)))
    requires forall k {:trigger Index(k)} :: k >= n ==> !Has(es, Index(k))
    ensures Extent(es) == n
  {
    if es != [] {
      Found(es, |es| - 1);
      if n > 0 {
        var p := LowerBound(es, Index(n - 1));
      }
    }
  }

  /** Increasing indices are at least their positions. */
  lemma {:induction false} IndexAtLeast(es: seq<Entry>, i: nat)
    requires Map(es) && i < |es|
    ensures es[i].key.n >= i
  {
    if i > 0 {
      IndexAtLeast(es, i - 1);
      assert KeyLess(es[i-1].key, es[i].key);
    }
  }

  lemma SamePosition(es: seq<Entry>, p: nat, i: nat)
    requires Map(es) && p < |es| && es[p].key == Index(i) && i < |es| && es[i].key.n >= i
    requires forall j :: 0 <= j < i ==> es[j].key == Index(j)
    requires forall j :: 0 <= j < p ==> KeyLess(es[j].key, Index(i))
    ensures p == i
  {
  }

  lemma {:induction false} DensePrefix(es: seq<Entry>, n: nat)
    requires Map(es) && n <= |es|
    requires forall k {:trigger Index(k)} :: 0 <= k < Extent(es) ==> Has(es, Index(k))
    ensures forall i :: 0 <= i < n ==> es[i].key == Index(i)
  {
    if n > 0 {
      DensePrefix(es, n - 1);
      IndexAtLeast(es, n - 1);
      IndexAtLeast(es, |es| - 1);
      hide Map, LowerBound;
      assert Has(es, Index(n - 1));
      SamePosition(es, LowerBound(es, Index(n - 1)), n - 1);
    }
  }

  /** An array has no holes exactly when every index below its extent is found. */
  lemma {:induction false} DenseFound(es: seq<Entry>)
    requires Map(es)
    ensures Dense(es) <==> forall k {:trigger Index(k)} :: 0 <= k < Extent(es) ==> Has(es, Index(k))
  {
    if Dense(es) {
      forall k {:trigger Index(k)} | 0 <= k < Extent(es) ensures Has(es, Index(k)) {
        Found(es, k);
      }
    } else if es != [] && forall k {:trigger Index(k)} :: 0 <= k < Extent(es) ==> Has(es, Index(k)) {
      DensePrefix(es, |es|);
    }
  }

  lemma IndexBounds(es: seq<Entry>, n: nat, i: nat)
    requires n <= i
    ensures LowerBound(es, Index(n)) <= LowerBound(es, Index(i))
  {
  }

  /** The map without the indices from `n` up to `i`. */
  function Without(es: seq<Entry>, n: nat, i: nat): seq<Entry>
    requires n <= i
  {
    IndexBounds(es, n, i);
    es[..LowerBound(es, Index(n))] + es[LowerBound(es, Index(i))..]
  }

  lemma WithoutSorted(es: seq<Entry>, p: nat, q: nat)
    requires Map(es) && p <= q <= |es|
    ensures Map(es[..p] + es[q..])
  {
  }

  lemma WithoutBound(es: seq<Entry>, n: nat, i: nat)
    requires Map(es) && n <= i
    ensures Map(Without(es, n, i)) && LowerBound(Without(es, n, i), Index(i)) == LowerBound(es, Index(n))
  {
    var p, rest := LowerBound(es, Index(n)), Without(es, n, i);
    IndexBounds(es, n, i);
    WithoutSorted(es, p, LowerBound(es, Index(i)));
    hide Sorted, Indexed;
    assert p > 0 ==> rest[p-1] == es[p-1];
    LowerBoundUnique(rest, Index(i), p);
  }

  lemma WithoutNone(es: seq<Entry>, n: nat)
    ensures Without(es, n, n) == es
  {
  }

  lemma NextBound(es: seq<Entry>, i: nat)
    requires Map(es)
    ensures LowerBound(es, Index(i + 1)) == LowerBound(es, Index(i)) + if Has(es, Index(i)) then 1 else 0
  {
    var q := LowerBound(es, Index(i));
    LowerBoundUnique(es, Index(i + 1), if Has(es, Index(i)) then q + 1 else q);
  }

  /** One step of the erasing loop. */
  lemma EraseNext(es: seq<Entry>, n: nat, i: nat)
    requires Map(es) && n <= i
    ensures Erase(Without(es, n, i), Index(i)) == Without(es, n, i + 1)
  {
    hide Map, LowerBound;
    WithoutBound(es, n, i);
    IndexBounds(es, n, i);
    NextBound(es, i);
  }

  /** What remains below `n` is found as before. */
  lemma BelowLookup(es: seq<Entry>, n: nat, k: nat)
    requires Map(es)
    ensures var r := es[..LowerBound(es, Index(n))];
            && Map(r)
            && (Has(r, Index(k)) <==> k < n && Has(es, Index(k)))
            && Get(r, Index(k)) == if k < n then Get(es, Index(k)) else Null
  {
    var p, r := LowerBound(es, Index(n)), es[..LowerBound(es, Index(n))];
    if Has(r, Index(k)) {
      Found(es, LowerBound(r, Index(k)));
    } else if k < n && Has(es, Index(k)) {
      IndexBounds(es, k, n);
      Found(r, LowerBound(es, Index(k)));
    }
  }

  /** Cutting a map at `n` truncates the view just if there is an entry at its new end. */
  lemma BelowView(es: seq<Entry>, n: nat)
    requires Map(es) && 0 < n <= Extent(es)
    ensures var r := es[..LowerBound(es, Index(n))];
            && Map(r)
            && Extent(r) <= n
            && (Extent(r) == n <==> Has(es, Index(n - 1)))
            && View(r) == View(es)[..Extent(r)]
            && (Dense(es) ==> Dense(r) && Extent(r) == n)
  {
    hide Sorted, LowerBound, Has, Get, Dense, Extent;
    var r := es[..LowerBound(es, Index(n))];
    forall k: nat ensures Has(r, Index(k)) <==> k < n && Has(es, Index(k))
            ensures Get(r, Index(k)) == if k < n then Get(es, Index(k)) else Null {
      BelowLookup(es, n, k);
    }
    BelowLookup(es, n, 0);
    ExtentFound(r);
    if Has(es, Index(n - 1)) {
      ExtentUnique(r, n);
    }
    DenseFound(es);
    DenseFound(r);
  }

  /** Adding an entry at or past the end pads the view with nulls up to it. */
  lemma PutView(es: seq<Entry>, n: nat, value: Value)
    requires Map(es) && Extent(es) <= n < ARRAY_INDEX_MODULUS
    ensures var r := Put(es, Index(n), value);
            && Map(r) && Extent(r) == n + 1
            && View(r) == View(es) + seq(n - Extent(es), _ => Null) + [value]
            && (Dense(es) && n == Extent(es) ==> Dense(r))
  {
    hide Sorted, LowerBound, Has, Get, Put, Erase, Dense, Extent;
    var r := Put(es, Index(n), value);
    ExtentFound(es);
    MapPut(es, n, value);
    forall k: nat ensures Has(r, Index(k)) <==> k == n || Has(es, Index(k))
            ensures Get(r, Index(k)) == if k == n then value else Get(es, Index(k)) {
      PutLookup(es, Index(n), value, Index(k));
    }
    ExtentUnique(r, n + 1);
    DenseFound(es);
    DenseFound(r);
  }

  /** Overwriting below the end changes one element of the view. */
  lemma PutInside(es: seq<Entry>, n: nat, value: Value)
    requires Map(es) && n < Extent(es)
    ensures var r := Put(es, Index(n), value);
            Map(r) && Extent(r) == Extent(es) && View(r) == View(es)[n := value]
  {
    hide Sorted, LowerBound, Has, Get, Put, Erase, Dense, Extent;
    var r := Put(es, Index(n), value);
    ExtentFound(es);
    MapPut(es, n, value);
    forall k: nat ensures Has(r, Index(k)) <==> k == n || Has(es, Index(k))
            ensures Get(r, Index(k)) == if k == n then value else Get(es, Index(k)) {
      PutLookup(es, Index(n), value, Index(k));
    }
    ExtentUnique(r, Extent(es));
  }

  /** `operator[]`: a missing entry is created as null. */
  function Slotted(es: seq<Entry>, n: nat): seq<Entry> {
    if Has(es, Index(n)) then es else Put(es, Index(n), Null)
  }

  lemma SlottedLookup(es: seq<Entry>, n: nat, k: nat)
    requires Map(es) && n < ARRAY_INDEX_MODULUS
    ensures Map(Slotted(es, n))
    ensures Has(Slotted(es, n), Index(k)) <==> k == n || Has(es, Index(k))
    ensures Get(Slotted(es, n), Index(k)) == Get(es, Index(k))
  {
    MapPut(es, n, Null);
    PutLookup(es, Index(n), Null, Index(k));
  }

  /** The state of the shifting loop of `removeIndex`: `es0` with `index` removed and `i` not yet. */
  ghost predicate Shifted(es0: seq<Entry>, es: seq<Entry>, index: nat, i: nat) {
    && Map(es)
    && (forall k {:trigger Index(k)} :: 0 <= k ==> (Has(es, Index(k)) <==> index <= k <= i || Has(es0, Index(k))))
    && (forall k {:trigger Index(k)} :: 0 <= k ==> Get(es, Index(k)) == Get(es0, Index(if index <= k < i then k + 1 else k)))
  }

  lemma ShiftNext(es0: seq<Entry>, es: seq<Entry>, index: nat, i: nat)
    requires Shifted(es0, es, index, i) && index <= i && i + 1 < ARRAY_INDEX_MODULUS
    ensures var slot := Slotted(es, i + 1);
            Shifted(es0, Put(slot, Index(i), Get(slot, Index(i + 1))), index, i + 1)
  {
    hide Map, LowerBound, Has, Get, Put, Extent, Slotted;
    var slot := Slotted(es, i + 1);
    var r := Put(slot, Index(i), Get(slot, Index(i + 1)));
    SlottedLookup(es, i + 1, i + 1);
    MapPut(slot, i, Get(slot, Index(i + 1)));
    forall k {:trigger Index(k)} | 0 <= k
      ensures Has(r, Index(k)) <==> index <= k <= i + 1 || Has(es0, Index(k))
      ensures Get(r, Index(k)) == Get(es0, Index(if index <= k < i + 1 then k + 1 else k))
    {
      SlottedLookup(es, i + 1, k);
      PutLookup(slot, Index(i), Get(slot, Index(i + 1)), Index(k));
    }
  }

  /** When `removeIndex` acts as delete-at. */
  predicate Deletes(es: seq<Entry>, index: nat)
    requires Indexed(es)
  {
    index + 1 < Extent(es) || index == 0 || Has(es, Index(index - 1))
  }

  /** What `removeIndex` leaves: the entries behind `index` are shifted down, and the holes among them filled. */
  ghost predicate Removed(es0: seq<Entry>, r: seq<Entry>, index: nat)
    requires Indexed(es0)
  {
    && Map(r)
    && (forall k {:trigger Index(k)} :: 0 <= k ==> (Has(r, Index(k)) <==> k < Extent(es0) - 1 && (index <= k || Has(es0, Index(k)))))
    && (forall k {:trigger Index(k)} :: 0 <= k ==> Get(r, Index(k)) == if k < Extent(es0) - 1 then Get(es0, Index(if index <= k then k + 1 else k)) else Null)
  }

  lemma ShiftedRemoved(es0: seq<Entry>, es: seq<Entry>, index: nat)
    requires Map(es0) && index < Extent(es0) && Shifted(es0, es, index, Extent(es0) - 1)
    ensures Map(Erase(es, Index(Extent(es0) - 1))) && Removed(es0, Erase(es, Index(Extent(es0) - 1)), index)
  {
    hide Sorted, LowerBound, Has, Get, Erase, Extent;
    var last := Extent(es0) - 1;
    var r := Erase(es, Index(last));
    ExtentFound(es0);
    EraseMap(es, last);
    forall k {:trigger Index(k)} | 0 <= k
      ensures Has(r, Index(k)) <==> k < last && (index <= k || Has(es0, Index(k)))
      ensures Get(r, Index(k)) == if k < last then Get(es0, Index(if index <= k then k + 1 else k)) else Null
    {
      EraseLookup(es, Index(last), Index(k));
    }
  }

  /** `removeIndex` deletes at `index`, unless that was the last entry with a hole before it. */
  lemma RemovedView(es0: seq<Entry>, r: seq<Entry>, index: nat)
    requires Map(es0) && Has(es0, Index(index)) && index < Extent(es0) && Removed(es0, r, index)
    ensures var v := View(es0);
            if Deletes(es0, index) then View(r) == v[..index] + v[index+1..] else View(r) < v[..index]
  {
    hide Sorted, LowerBound, Has, Get, Extent;
    ExtentFound(es0);
    if Deletes(es0, index) {
      ExtentUnique(r, Extent(es0) - 1);
      var v, w := View(es0), View(r);
      forall k | 0 <= k < |w| ensures w[k] == (v[..index] + v[index+1..])[k] {
        assert w[k] == Get(r, Index(k)) == Get(es0, Index(if index <= k then k + 1 else k));
      }
    } else {
      ExtentFound(r);
      assert forall k :: 0 <= k < |View(r)| ==> View(r)[k] == View(es0)[k];
    }
  }

  lemma RemovedDense(es0: seq<Entry>, r: seq<Entry>, index: nat)
    requires Map(es0) && Dense(es0) && index < Extent(es0) && Removed(es0, r, index)
    ensures Deletes(es0, index) && Dense(r)
  {
    hide Sorted, LowerBound, Has, Get, Extent;
    DenseFound(es0);
    DenseFound(r);
    ExtentFound(r);
  }

  lemma EmptyMap()
    ensures Map([])
  {
  }

  /** What `resize` to `n` makes of the array `before`. */
  ghost predicate Resized(before: seq<Entry>, after: seq<Entry>, n: nat, ok: bool)
    requires Map(before) && Map(after)
  {
    var v := View(before);
    if n == 0 then ok && after == []
    else if n > |v| then ok && View(after) == v + seq(n - |v|, _ => Null)
    else if |v| == ARRAY_INDEX_MODULUS then ok && View(after) == v
    else
      && ok == Has(before, Index(n - 1))
      && (if ok then View(after) == v[..n] else View(after) < v[..n])
      && (Dense(before) ==> ok && Dense(after))
  }

  /** Creating a missing entry extends the view with nulls, or does not show in it. */
  lemma SlottedView(es: seq<Entry>, n: nat)
    requires Map(es) && n < ARRAY_INDEX_MODULUS
    ensures var r := Slotted(es, n);
            && Map(r) && n < Extent(r)
            && (if n < Extent(es) then View(r) == View(es) else View(r) == View(es) + seq(n + 1 - Extent(es), _ => Null))
  {
    hide Sorted, LowerBound, Put, Extent;
    ExtentFound(es);
    if !Has(es, Index(n)) {
      if n < Extent(es) {
        PutInside(es, n, Null);
        assert View(es)[n] == Null;
      } else {
        PutView(es, n, Null);
      }
    }
  }

  lemma StoreView(es: seq<Entry>, v: Value)
    requires Map(es)
    ensures var n := ArraySize(es);
            var r := Put(Slotted(es, n), Index(n), v);
            && Map(r)
            && (if Extent(es) < ARRAY_INDEX_MODULUS then View(r) == View(es) + [v] else View(r) == View(es)[0 := v])
            && (Extent(es) < ARRAY_INDEX_MODULUS && Dense(es) ==> Dense(r))
  {
    hide Sorted, LowerBound, Put, Has, Get, Slotted, Dense;
    var n := ArraySize(es);
    SlottedView(es, n);
    PutInside(Slotted(es, n), n, v);
    if Extent(es) < ARRAY_INDEX_MODULUS && Dense(es) {
      var r := Put(Slotted(es, n), Index(n), v);
      DenseFound(es);
      forall k: nat ensures Has(r, Index(k)) <==> k == n || Has(es, Index(k)) {
        SlottedLookup(es, n, k);
        PutLookup(Slotted(es, n), Index(n), v, Index(k));
      }
      DenseFound(r);
    }
  }

  lemma Cleared(es: seq<Entry>)
    requires Map(es)
    ensures Map([]) && Resized(es, [], 0, true)
  {
  }

  lemma ExtendedView(es: seq<Entry>, n: nat)
    requires Map(es) && ArraySize(es) < n < ARRAY_INDEX_MODULUS
    ensures Map(Slotted(es, n - 1)) && Resized(es, Slotted(es, n - 1), n, true)
  {
    hide Sorted, LowerBound, Put, Has, Get, Slotted, Dense;
    SlottedView(es, n - 1);
  }

  lemma SizeExtent(es: seq<Entry>)
    requires Map(es)
    ensures Extent(es) <= ARRAY_INDEX_MODULUS
    ensures ArraySize(es) == if Extent(es) < ARRAY_INDEX_MODULUS then Extent(es) else 0
    ensures |View(es)| == Extent(es)
  {
  }

  lemma WithoutAll(es: seq<Entry>, n: nat)
    requires Map(es) && n <= ArraySize(es) == Extent(es)
    ensures Without(es, n, ArraySize(es)) == es[..LowerBound(es, Index(n))]
  {
  }

  lemma CutView(es: seq<Entry>, n: nat)
    requires Map(es) && 0 < n <= ArraySize(es)
    ensures Map(Without(es, n, ArraySize(es)))
    ensures var r := Without(es, n, ArraySize(es));
            Resized(es, r, n, ArraySize(r) == n)
  {
    hide Sorted, LowerBound, Has, Get, Dense, Without, View;
    SizeExtent(es);
    WithoutAll(es, n);
    BelowView(es, n);
    SizeExtent(es[..LowerBound(es, Index(n))]);
  }

  lemma LastIndex(es: seq<Entry>, index: nat)
    requires Map(es) && Has(es, Index(index))
    ensures (ArraySize(es) + ARRAY_INDEX_MODULUS - 1) % ARRAY_INDEX_MODULUS == Extent(es) - 1 >= index
    ensures Shifted(es, es, index, index)
  {
  }

  /** A value that its methods change.  `ok` is false where the source throws. */
  class MutableValue {
    var value: Value

    constructor (value: Value)
      ensures this.value == value
    {
      this.value := value;
    }

    ghost predicate Valid()
      reads this
    {
      value.Arr? ==> Map(value.entries)
    }

    /** What the assertions on the type ask for; null becomes an array when it is indexed. */
    predicate IsArray()
      reads this
    {
      value.Null? || value.Arr?
    }

    function Entries(): seq<Entry>
      requires IsArray()
      reads this
    {
      if value.Arr? then value.entries else []
    }

    ghost function Elements(): seq<Value>
      requires Valid() && IsArray()
      reads this
    {
      View(Entries())
    }

    function Size(): nat
      reads this
    {
      match value
      case Arr(es) => ArraySize(es)
      case Obj(es) => |es| % ARRAY_INDEX_MODULUS
      case _ => 0
    }

    /** The const `operator[]`. */
    method At(index: nat) returns (ok: bool, found: Value)
      requires Valid() && index < ARRAY_INDEX_MODULUS
      ensures ok == IsArray()
      ensures ok ==> found == if index < |Elements()| then Elements()[index] else Null
    {
      if !IsArray() {
        return false, Null;
      }
      ExtentFound(Entries());
      return true, Get(Entries(), Index(index));
    }

    /** The other `operator[]`, which creates a missing entry. */
    method Slot(index: nat) returns (ok: bool)
      requires Valid() && index < ARRAY_INDEX_MODULUS
      modifies this
      ensures Valid() && ok == old(IsArray()) && (ok ==> value.Arr?)
      ensures value == if ok then Arr(Slotted(old(Entries()), index)) else old(value)
    {
      if !IsArray() {
        return false;
      }
      if value.Null? {
        value := Arr([]);
      }
      if !Has(value.entries, Index(index)) {
        MapPut(value.entries, index, Null);
        value := Arr(Put(value.entries, Index(index), Null));
      }
      return true;
    }

    /** `(*this)[index] = v`. */
    method Store(index: nat, v: Value) returns (ok: bool)
      requires Valid() && index < ARRAY_INDEX_MODULUS
      modifies this
      ensures Valid() && ok == old(IsArray()) && (ok ==> value.Arr?)
      ensures value == if ok then Arr(Put(Slotted(old(Entries()), index), Index(index), v)) else old(value)
    {
      hide LowerBound;
      ok := Slot(index);
      if ok {
        MapPut(value.entries, index, v);
        value := Arr(Put(value.entries, Index(index), v));
      }
    }

    /**
     `append` pushes at the end, and keeps an array dense; on an array that has used the
     last index of all the size wraps around and the first element is overwritten.
     */
    method Append(v: Value) returns (ok: bool)
      requires Valid()
      modifies this
      ensures Valid() && ok == old(IsArray()) && (!ok ==> value == old(value)) && (ok ==> value.Arr?)
      ensures ok && |old(Elements())| < ARRAY_INDEX_MODULUS ==>
                Elements() == old(Elements()) + [v] && (old(Dense(Entries())) ==> Dense(Entries()))
      ensures ok && |old(Elements())| == ARRAY_INDEX_MODULUS ==> Elements() == old(Elements())[0 := v]
    {
      hide Sorted, LowerBound, Put, Has, Get, Slotted, Dense;
      ok := Store(Size(), v);
      if ok {
        EmptyMap();
        StoreView(old(Entries()), v);
      }
    }

    /** `clear`. */
    method Clear() returns (ok: bool)
      requires Valid()
      modifies this
      ensures Valid() && ok == (old(IsArray()) || old(value.Obj?))
      ensures value == match old(value) case Arr(_) => Arr([]) case Obj(_) => Obj([]) case v => v
    {
      match value {
        case Arr(_) => value := Arr([]);
        case Obj(_) => value := Obj([]);
        case _ =>
      }
      return value.Null? || value.Arr? || value.Obj?;
    }

    /**
     `resize` extends with nulls.  It truncates, and its assertion passes, just if there is
     an entry at the new end, so always on a dense array.  Where the size has wrapped around
     nothing is cut off.
     */
    method Resize(newSize: nat) returns (ok: bool)
      requires Valid() && newSize < ARRAY_INDEX_MODULUS
      modifies this
      ensures Valid() && (!old(IsArray()) ==> !ok && value == old(value))
      ensures old(IsArray()) ==> value.Arr? && Resized(old(Entries()), Entries(), newSize, ok)
    {
      hide Map, LowerBound, Erase, Without, Slotted, Resized, Dense;
      if !IsArray() {
        return false;
      }
      EmptyMap();
      if value.Null? {
        value := Arr([]);
      }
      ghost var before := value.entries;
      Cleared(before);
      var oldSize := Size();
      if newSize == 0 {
        ok := Clear();
      } else if newSize > oldSize {
        ok := Slot(newSize - 1);
        ExtendedView(before, newSize);
      } else {
        var index := newSize;
        WithoutNone(before, newSize);
        while index < oldSize
          invariant newSize <= index <= oldSize && value == Arr(Without(before, newSize, index))
        {
          EraseNext(before, newSize, index);
          value := Arr(Erase(value.entries, Index(index)));
          index := index + 1;
        }
        CutView(before, newSize);
        ok := Size() == newSize;
      }
    }

    /**
     `removeIndex`: nothing is done where there is no entry; otherwise its value is returned
     and the element deleted, unless it was the last one with a hole before it, when the hole
     goes too.
     */
    method RemoveIndex(index: nat) returns (removed: Option<Value>)
      requires Valid() && index < ARRAY_INDEX_MODULUS
      modifies this
      ensures Valid()
      ensures removed.None? <==> !(old(value.Arr?) && Has(old(Entries()), Index(index)))
      ensures removed.None? ==> value == old(value)
      ensures removed.Some? ==>
                && value.Arr? && index < |old(Elements())| && removed.value == old(Elements())[index]
                && (if Deletes(old(Entries()), index)
                    then Elements() == old(Elements())[..index] + old(Elements())[index+1..]
                    else Elements() < old(Elements())[..index])
                && (old(Dense(Entries())) ==> Deletes(old(Entries()), index) && Dense(Entries()))
    {
      hide Sorted, LowerBound, Erase, Shifted, Slotted, Removed, Dense, Deletes, Put;
      if !value.Arr? || !Has(value.entries, Index(index)) {
        return None;
      }
      ghost var before := value.entries;
      removed := Some(Get(value.entries, Index(index)));
      var oldSize := Size();
      var last := (oldSize + ARRAY_INDEX_MODULUS - 1) % ARRAY_INDEX_MODULUS;
      LastIndex(before, index);
      var i := index;
      while i < last
        invariant index <= i <= last && value.Arr? && Shifted(before, value.entries, index, i)
      {
        ShiftNext(before, value.entries, index, i);
        var slot := Slotted(value.entries, i + 1);
        value := Arr(Put(slot, Index(i), Get(slot, Index(i + 1))));
        i := i + 1;
      }
      ShiftedRemoved(before, value.entries, index);
      value := Arr(Erase(value.entries, Index(last)));
      RemovedView(before, value.entries, index);
      if Dense(before) {
        RemovedDense(before, value.entries, index);
      }
    }
  }

  /** The array of null, a hole and true. */
  const SPARSE: seq<Entry> := [Entry(Index(0), Null), Entry(Index(2), Bool(true))]

  /** Assignment behind the last entry appends one. */
  lemma PutLast(es: seq<Entry>, n: nat, value: Value)
    requires Map(es) && Extent(es) <= n
    ensures Put(Slotted(es, n), Index(n), value) == es + [Entry(Index(n), value)]
  {
    var slot := es + [Entry(Index(n), Null)];
    LowerBoundUnique(es, Index(n), |es|);
    assert Slotted(es, n) == slot;
    LowerBoundUnique(slot, Index(n), |es|);
  }

  lemma SparsePuts()
    ensures Put(Slotted([], 0), Index(0), Null) == [Entry(Index(0), Null)]
    ensures Put(Slotted([Entry(Index(0), Null)], 2), Index(2), Bool(true)) == SPARSE
  {
    PutLast([], 0, Null);
    PutLast([Entry(Index(0), Null)], 2, Bool(true));
    hide Put, Slotted;
    assert SPARSE == [Entry(Index(0), Null)] + [Entry(Index(2), Bool(true))];
  }

  /** Two assignments make such an a. */
  method MakeSparse() returns (a: MutableValue)
    ensures fresh(a) && a.value == Arr(SPARSE) && a.Valid()
  {
    hide Put, Slotted, Map;
    SparsePuts();
    a := new MutableValue(Null);
    var ok := a.Store(0, Null);
    ok := a.Store(2, Bool(true));
  }

  lemma SparseView()
    ensures Map(SPARSE) && View(SPARSE) == [Null, Null, Bool(true)]
    ensures !Has(SPARSE, Index(1)) && Has(SPARSE, Index(2)) && !Deletes(SPARSE, 2)
  {
    LowerBoundUnique(SPARSE, Index(0), 0);
    LowerBoundUnique(SPARSE, Index(1), 1);
    LowerBoundUnique(SPARSE, Index(2), 1);
  }

  /** `resize` to two elements leaves one, and its assertion fails. */
  method ShrinkSparse() returns (a: MutableValue, ok: bool)
    ensures a.Valid() && a.value.Arr? && |a.Elements()| < 2 && !ok
  {
    a := MakeSparse();
    SparseView();
    ok := a.Resize(2);
  }

  /** `removeIndex` of the last of three elements leaves fewer than two. */
  method RemoveFromSparse() returns (a: MutableValue, removed: Option<Value>)
    ensures a.Valid() && a.value.Arr? && |a.Elements()| < 2 && removed == Some(Bool(true))
  {
    a := MakeSparse();
    SparseView();
    removed := a.RemoveIndex(2);
  }
}
