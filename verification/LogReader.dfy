/**
 The reader of the binary log in `data/logz`: the map file gives the layout of every data
 file, which numpy reads as records of the time and the fields of the variable.
 */
module LogReader {
  import opened Division
  import opened Frames
  import opened Options
  import opened VariableLog

  /** The types a logged field may have: an integer type of the given width, or a floating point type. */
  datatype CType = Integer(width: nat, signed: bool) | Float | Double

  /** A field's value: floating point numbers are kept as their bytes. */
  datatype Scalar = Whole(n: int) | Bits(b: bytes)

  function SizeOf(t: CType): nat {
    match t
    case Integer(width, _) => width
    case Float => 4
    case Double => 8
  }

  /** The width numpy gives the type: `np.float` is Python's float, which is a double. */
  function ItemSize(t: CType): nat {
    match t
    case Integer(width, _) => width
    case Float => 8
    case Double => 8
  }

  predicate Fits(t: CType, v: Scalar) {
    match t
    case Integer(width, signed) =>
      && width > 0 && v.Whole?
      && (if signed then -(Range(width) / 2) <= v.n < Range(width) / 2 else 0 <= v.n < Range(width))
    case _ => v.Bits? && |v.b| == SizeOf(t)
  }

  function EncodeScalar(t: CType, v: Scalar): (b: bytes)
    requires Fits(t, v)
    ensures |b| == SizeOf(t)
  {
    match t
    case Integer(width, _) => Bytes(if v.n < 0 then v.n + Range(width) else v.n, width)
    case _ => v.b
  }

  function DecodeScalar(t: CType, b: bytes): Scalar {
    match t
    case Integer(width, signed) =>
      var n := Number(b);
      Whole(if signed && n >= Range(width) / 2 then n - Range(width) else n)
    case _ => Bits(b)
  }

  lemma ScalarRoundTrip(t: CType, v: Scalar)
    requires Fits(t, v)
    ensures DecodeScalar(t, EncodeScalar(t, v)) == v
  {
    if t.Integer? {
      assert Range(t.width) % 2 == 0;
      NumberOfBytes(if v.n < 0 then v.n + Range(t.width) else v.n, t.width);
    }
  }

  lemma Wrapped(n: int, m: nat, width: nat)
    requires m < width && (n == m || n == m - width)
    ensures n % width == m
  {
    Quotient(0, m, width);
    assert n == m - width ==> n == -1 * width + m;
  }

  /** An integer lies in memory as the bytes of its two's complement, the lowest first. */
  lemma IntegerBytes(t: CType, v: Scalar, k: nat)
    requires t.Integer? && Fits(t, v) && k < t.width
    ensures EncodeScalar(t, v)[k] == v.n % Range(t.width) / Range(k) % 256
  {
    var m := if v.n < 0 then v.n + Range(t.width) else v.n;
    BytesAt(m, t.width, k);
    hide Range, Bytes;
    Wrapped(v.n, m, Range(t.width));
  }

  function StructSize(types: seq<CType>): nat {
    if types == [] then 0 else SizeOf(types[0]) + StructSize(types[1..])
  }

  function LayoutSize(types: seq<CType>): nat {
    if types == [] then 0 else ItemSize(types[0]) + LayoutSize(types[1..])
  }

  predicate AllFit(types: seq<CType>, values: seq<Scalar>) {
    |types| == |values| && forall i :: 0 <= i < |types| ==> Fits(types[i], values[i])
  }

  /** A packed struct in memory. */
  function EncodeStruct(types: seq<CType>, values: seq<Scalar>): (b: bytes)
    requires AllFit(types, values)
    ensures |b| == StructSize(types)
  {
    if types == [] then [] else EncodeScalar(types[0], values[0]) + EncodeStruct(types[1..], values[1..])
  }

  function DecodeStruct(types: seq<CType>, b: bytes): seq<Scalar>
    requires |b| == LayoutSize(types)
  {
    if types == [] then []
    else
      var n := ItemSize(types[0]);
      [DecodeScalar(types[0], b[..n])] + DecodeStruct(types[1..], b[n..])
  }

  /** Writer and reader agree on the size of a record just when no field is a `float`. */
  lemma {:induction false} SizesAgree(types: seq<CType>)
    ensures LayoutSize(types) >= StructSize(types)
    ensures LayoutSize(types) == StructSize(types) <==> Float !in types
  {
    if types != [] {
      SizesAgree(types[1..]);
      assert types == [types[0]] + types[1..];
    }
  }

  lemma {:induction false} StructRoundTrip(types: seq<CType>, values: seq<Scalar>)
    requires AllFit(types, values) && Float !in types
    ensures LayoutSize(types) == StructSize(types)
    ensures DecodeStruct(types, EncodeStruct(types, values)) == values
  {
    SizesAgree(types);
    if types != [] {
      ScalarRoundTrip(types[0], values[0]);
      StructRoundTrip(types[1..], values[1..]);
      var b, n := EncodeStruct(types, values), SizeOf(types[0]);
      assert b[..n] == EncodeScalar(types[0], values[0]) && b[n..] == EncodeStruct(types[1..], values[1..]);
      assert values == [values[0]] + values[1..];
    }
  }

  /** A record as it was logged, and as it is read. */
  datatype Item = Item(time: nat, values: seq<Scalar>)

  predicate Loggable(types: seq<CType>, item: Item) {
    item.time < Range(TIME_LENGTH) && AllFit(types, item.values)
  }

  function ToSample(types: seq<CType>, item: Item): Sample
    requires Loggable(types, item)
  {
    Sample(item.time, EncodeStruct(types, item.values))
  }

  function ToSamples(types: seq<CType>, items: seq<Item>): (samples: seq<Sample>)
    requires forall i :: 0 <= i < |items| ==> Loggable(types, items[i])
    ensures |samples| == |items|
    ensures forall i :: 0 <= i < |items| ==> samples[i] == ToSample(types, items[i])
  {
    if items == [] then [] else ToSamples(types, items[..|items|-1]) + [ToSample(types, items[|items|-1])]
  }

  /** One record under the layout with the time in front. */
  function DecodeItem(types: seq<CType>, b: bytes): Item
    requires |b| == TIME_LENGTH + LayoutSize(types)
  {
    Item(Number(b[..TIME_LENGTH]), DecodeStruct(types, b[TIME_LENGTH..]))
  }

  function Width(types: seq<CType>): nat {
    TIME_LENGTH + LayoutSize(types)
  }

  function Items(types: seq<CType>, data: bytes, n: nat): (items: seq<Item>)
    requires |data| == n * Width(types)
    ensures |items| == n
    decreases n
  {
    if n == 0 then []
    else
      assert n * Width(types) == (n - 1) * Width(types) + Width(types);
      var k := |data| - Width(types);
      Items(types, data[..k], n - 1) + [DecodeItem(types, data[k..])]
  }

  /** `np.frombuffer`: fails on a buffer that is not a whole number of items. */
  function FromBuffer(types: seq<CType>, data: bytes): Option<seq<Item>> {
    if |data| % Width(types) != 0 then None else Some(Items(types, data, |data| / Width(types)))
  }

  lemma {:induction false} RecordedLength(samples: seq<Sample>, size: nat)
    requires forall s :: s in samples ==> |s.data| == size
    ensures |Recorded(samples)| == |samples| * (TIME_LENGTH + size)
  {
    if samples != [] {
      var n, width := |samples| - 1, TIME_LENGTH + size;
      assert |Record(samples[n])| == width;
      hide Record;
      RecordedLength(samples[..n], size);
      Distribute(n, 1, width);
    }
  }

  lemma ItemRoundTrip(types: seq<CType>, item: Item)
    requires Loggable(types, item) && Float !in types
    ensures |Record(ToSample(types, item))| == Width(types) && DecodeItem(types, Record(ToSample(types, item))) == item
  {
    StructRoundTrip(types, item.values);
    NumberOfBytes(item.time, TIME_LENGTH);
    var b := Record(ToSample(types, item));
    assert b[..TIME_LENGTH] == Bytes(item.time, TIME_LENGTH) && b[TIME_LENGTH..] == EncodeStruct(types, item.values);
  }

  lemma ItemsMore(types: seq<CType>, init: bytes, last: bytes, n: nat)
    requires |init| == n * Width(types) && |last| == Width(types)
    ensures |init + last| == (n + 1) * Width(types)
    ensures Items(types, init + last, n + 1) == Items(types, init, n) + [DecodeItem(types, last)]
  {
    assert (n + 1) * Width(types) == n * Width(types) + Width(types);
    assert (init + last)[..|init|] == init && (init + last)[|init|..] == last;
  }

  lemma {:induction false} ItemsRoundTrip(types: seq<CType>, items: seq<Item>)
    requires (forall i :: 0 <= i < |items| ==> Loggable(types, items[i])) && Float !in types
    ensures |Recorded(ToSamples(types, items))| == |items| * Width(types)
    ensures Items(types, Recorded(ToSamples(types, items)), |items|) == items
  {
    hide Width, DecodeItem, Record, ToSample, Loggable, Recorded;
    if items == [] {
      RecordedNone();
    } else {
      var n := |items| - 1;
      ItemsRoundTrip(types, items[..n]);
      ItemRoundTrip(types, items[n]);
      RecordedMore(ToSamples(types, items[..n]), ToSample(types, items[n]));
      ItemsMore(types, Recorded(ToSamples(types, items[..n])), Record(ToSample(types, items[n])), n);
      assert items == items[..n] + [items[n]];
    }
  }

  lemma FewerMultiples(n: nat, q: nat, r: nat, narrow: nat, wide: nat)
    requires n > 0 && narrow < wide && n * narrow == q * wide + r
    ensures q < n
  {
    assert n * wide == n * narrow + n * (wide - narrow);
    assert q * wide == n * wide + (q - n) * wide;
    assert q >= n ==> (q - n) * wide >= 0;
  }

  /** Wider items are fewer. */
  lemma TooFew(n: nat, narrow: nat, wide: nat)
    requires n > 0 && 0 < narrow < wide
    ensures (n * narrow) / wide < n
  {
    var m := n * narrow;
    FewerMultiples(n, m / wide, m % wide, narrow, wide);
  }

  lemma LoggedLength(types: seq<CType>, items: seq<Item>)
    requires forall i :: 0 <= i < |items| ==> Loggable(types, items[i])
    ensures |Recorded(ToSamples(types, items))| == |items| * (TIME_LENGTH + StructSize(types))
  {
    RecordedLength(ToSamples(types, items), StructSize(types));
  }

  /** What was logged is read back, time included, just when no field is a `float`. */
  lemma ReadBack(types: seq<CType>, items: seq<Item>)
    requires items != [] && forall i :: 0 <= i < |items| ==> Loggable(types, items[i])
    ensures FromBuffer(types, Recorded(ToSamples(types, items))) == Some(items) <==> Float !in types
  {
    hide Recorded, Items, StructSize, LayoutSize, ToSample, Loggable;
    var data := Recorded(ToSamples(types, items));
    if Float !in types {
      ItemsRoundTrip(types, items);
      Quotient(|items|, 0, Width(types));
    } else {
      SizesAgree(types);
      LoggedLength(types, items);
      TooFew(|items|, TIME_LENGTH + StructSize(types), Width(types));
    }
  }

  /** `ProtobufIter`: takes length-prefixed messages off the front of its buffer. */
  datatype Next = Stop | Malformed | Message(body: bytes)

  class ProtobufIter {
    var buf: bytes

    constructor (buf: bytes)
      ensures this.buf == buf
    {
      this.buf := buf;
    }

    /**
     `__next__`.  Frame by frame the iterator yields what `Split` finds; at a partial frame
     slicing gives the bytes there are.
     */
    method Next() returns (r: Next)
      modifies this
      ensures r.Stop? <==> old(buf) == []
      ensures r.Malformed? <==> 0 < |old(buf)| < HEADER
      ensures !r.Message? ==> buf == old(buf)
      ensures r.Message? ==> old(buf) == old(buf)[..HEADER] + r.body + buf
      ensures r.Message? && !Partial(BigEndian, old(buf)) ==>
                && IsFrame(BigEndian, old(buf)[..HEADER] + r.body)
                && Split(BigEndian, old(buf)).0 == [old(buf)[..HEADER] + r.body] + Split(BigEndian, buf).0
                && Split(BigEndian, old(buf)).1 == Split(BigEndian, buf).1
      ensures r.Message? && Partial(BigEndian, old(buf)) ==> buf == []
    {
      if |buf| == 0 {
        return Stop;
      }
      if |buf| < HEADER {
        return Malformed;
      }
      var end := HEADER + BodyLength(BigEndian, buf[..HEADER]);
      if end > |buf| {
        end := |buf|;
      }
      var body := buf[HEADER..end];
      assert buf[..end] == buf[..HEADER] + body && (buf[..HEADER] + body)[..HEADER] == buf[..HEADER];
      assert buf == buf[..HEADER] + body + buf[end..];
      buf := buf[end..];
      return Message(body);
    }
  }

  /** The message `proto::Map`, and what the reader keeps of it. */
  datatype MapInfo = MapInfo(name: string, id: nat, types: seq<CType>, names: seq<string>)

  datatype Mapping = Mapping(types: seq<CType>, id: nat)

  /** What `File.__init__` makes of parsed entries: a later one replaces an earlier one of its name. */
  function Mappings(infos: seq<MapInfo>): map<string, Mapping> {
    if infos == [] then map[]
    else
      var info := infos[|infos|-1];
      Mappings(infos[..|infos|-1])[info.name := Mapping(info.types, info.id)]
  }

  lemma MappingsMore(infos: seq<MapInfo>, n: nat)
    requires n < |infos|
    ensures Mappings(infos[..n+1]) == Mappings(infos[..n])[infos[n].name := Mapping(infos[n].types, infos[n].id)]
  {
    assert infos[..n+1][..n] == infos[..n];
  }

  ghost predicate LastOfItsName(infos: seq<MapInfo>, i: nat)
    requires i < |infos|
  {
    forall j :: i < j < |infos| ==> infos[j].name != infos[i].name
  }

  /** Where no later entry has its name, an entry is what the reader finds under it. */
  lemma {:induction false} LastOfName(infos: seq<MapInfo>, i: nat)
    requires i < |infos| && LastOfItsName(infos, i)
    ensures infos[i].name in Mappings(infos) && Mappings(infos)[infos[i].name] == Mapping(infos[i].types, infos[i].id)
  {
    var n := |infos| - 1;
    if i < n {
      LastOfName(infos[..n], i);
    }
  }

  predicate Parses(parse: bytes -> Option<MapInfo>, entry: bytes) {
    && |entry| >= HEADER
    && var info := parse(entry[HEADER..]);
       info.Some? && |info.value.types| == |info.value.names|
  }

  /** The entries parse to `infos`, each with as many types as names. */
  ghost predicate ParseTo(parse: bytes -> Option<MapInfo>, entries: seq<bytes>, infos: seq<MapInfo>) {
    && |entries| == |infos|
    && forall i :: 0 <= i < |infos| ==> Parses(parse, entries[i]) && parse(entries[i][HEADER..]).value == infos[i]
  }

  lemma EntryParses(parse: bytes -> Option<MapInfo>, entry: bytes, header: bytes, body: bytes)
    requires entry == header + body && |header| == HEADER
    ensures entry[HEADER..] == body
    ensures Parses(parse, entry) <==> parse(body).Some? && |parse(body).value.types| == |parse(body).value.names|
  {
  }

  lemma PartialSplit(s: bytes)
    ensures Split(BigEndian, []) == ([], [])
    ensures Partial(BigEndian, s) ==> Split(BigEndian, s) == ([], s)
  {
  }

  /** The loop of `File.__init__` has taken the first `n` entries off the map file, and `rest` is left. */
  ghost predicate HasRead(parse: bytes -> Option<MapInfo>, mapping: bytes, infos: seq<MapInfo>, rest: bytes, n: nat,
                          mappings: map<string, Mapping>) {
    var (entries, held) := Split(BigEndian, mapping);
    && n <= |entries| && Split(BigEndian, rest).0 == entries[n..] && (held == [] ==> Split(BigEndian, rest).1 == [])
    && (forall i :: 0 <= i < n ==> Parses(parse, entries[i]))
    && (held == [] && ParseTo(parse, entries, infos) ==> mappings == Mappings(infos[..n]))
  }

  lemma ReadNone(parse: bytes -> Option<MapInfo>, mapping: bytes, infos: seq<MapInfo>)
    ensures HasRead(parse, mapping, infos, mapping, 0, map[])
  {
  }

  /** A whole entry that parses. */
  lemma ReadEntry(parse: bytes -> Option<MapInfo>, mapping: bytes, infos: seq<MapInfo>, before: bytes, body: bytes, after: bytes,
                  n: nat, mappings: map<string, Mapping>, info: MapInfo)
    requires HasRead(parse, mapping, infos, before, n, mappings) && |before| >= HEADER
    requires Split(BigEndian, before).0 == [before[..HEADER] + body] + Split(BigEndian, after).0
    requires Split(BigEndian, before).1 == Split(BigEndian, after).1
    requires parse(body) == Some(info) && |info.types| == |info.names|
    ensures HasRead(parse, mapping, infos, after, n + 1, mappings[info.name := Mapping(info.types, info.id)])
  {
    var entries, held := Split(BigEndian, mapping).0, Split(BigEndian, mapping).1;
    assert entries[n] == entries[n..][0] == before[..HEADER] + body;
    EntryParses(parse, entries[n], before[..HEADER], body);
    assert entries[n+1..] == entries[n..][1..] == Split(BigEndian, after).0;
    hide Split, Mappings, Parses;
    if held == [] && ParseTo(parse, entries, infos) {
      MappingsMore(infos, n);
    }
  }

  /** One that does not parse, when the file is not one of entries that do. */
  lemma RefuseEntry(parse: bytes -> Option<MapInfo>, mapping: bytes, infos: seq<MapInfo>, before: bytes, body: bytes, after: bytes,
                    n: nat, mappings: map<string, Mapping>)
    requires HasRead(parse, mapping, infos, before, n, mappings) && |before| >= HEADER
    requires Split(BigEndian, before).0 == [before[..HEADER] + body] + Split(BigEndian, after).0
    requires parse(body).None? || |parse(body).value.types| != |parse(body).value.names|
    ensures !ParseTo(parse, Split(BigEndian, mapping).0, infos)
  {
    var entries := Split(BigEndian, mapping).0;
    assert entries[n] == entries[n..][0] == before[..HEADER] + body;
    EntryParses(parse, entries[n], before[..HEADER], body);
  }

  /** A partial entry, which is the last. */
  lemma ReadPartial(parse: bytes -> Option<MapInfo>, mapping: bytes, infos: seq<MapInfo>, before: bytes, n: nat,
                    mappings: map<string, Mapping>, more: map<string, Mapping>)
    requires HasRead(parse, mapping, infos, before, n, mappings) && Partial(BigEndian, before)
    ensures n == |Split(BigEndian, mapping).0|
    ensures before != [] ==> Split(BigEndian, mapping).1 != [] && HasRead(parse, mapping, infos, [], n, more)
  {
    PartialSplit(before);
  }

  lemma AllRead(parse: bytes -> Option<MapInfo>, mapping: bytes, infos: seq<MapInfo>, n: nat, mappings: map<string, Mapping>)
    requires HasRead(parse, mapping, infos, [], n, mappings) && n == |Split(BigEndian, mapping).0|
    ensures Split(BigEndian, mapping).1 == [] && ParseTo(parse, Split(BigEndian, mapping).0, infos) ==> mappings == Mappings(infos)
    ensures forall entry :: entry in Split(BigEndian, mapping).0 ==> Parses(parse, entry)
  {
    hide Mappings, Split, Parses;
    if ParseTo(parse, Split(BigEndian, mapping).0, infos) {
      assert infos[..n] == infos;
    }
  }

  /**
   The loop of `File.__init__`.  A map file of whole entries that parse to `infos` gives their
   mappings; one with an entry that does not parse is refused.
   */
  method ReadMap(mapping: bytes, parse: bytes -> Option<MapInfo>, ghost infos: seq<MapInfo>)
    returns (r: Option<map<string, Mapping>>)
    ensures Split(BigEndian, mapping).1 == [] && ParseTo(parse, Split(BigEndian, mapping).0, infos) ==> r == Some(Mappings(infos))
    ensures r.Some? ==> forall entry :: entry in Split(BigEndian, mapping).0 ==> Parses(parse, entry)
  {
    hide HasRead, Mappings, Split, IsFrame, Parses, ParseTo;
    ReadNone(parse, mapping, infos);
    ghost var n := 0;
    var iter := new ProtobufIter(mapping);
    var mappings: map<string, Mapping> := map[];
    while true
      invariant HasRead(parse, mapping, infos, iter.buf, n, mappings)
      decreases |iter.buf|
    {
      ghost var before, read := iter.buf, mappings;
      if Partial(BigEndian, before) {
        ReadPartial(parse, mapping, infos, before, n, mappings, mappings);
      }
      var next := iter.Next();
      if next.Stop? {
        break;
      }
      if next.Malformed? {
        return None;
      }
      var p := parse(next.body);
      if p.None? || |p.value.types| != |p.value.names| {
        if !Partial(BigEndian, before) {
          RefuseEntry(parse, mapping, infos, before, next.body, iter.buf, n, mappings);
        }
        return None;
      }
      mappings := mappings[p.value.name := Mapping(p.value.types, p.value.id)];
      if Partial(BigEndian, before) {
        ReadPartial(parse, mapping, infos, before, n, read, mappings);
      } else {
        ReadEntry(parse, mapping, infos, before, next.body, iter.buf, n, read, p.value);
        n := n + 1;
      }
    }
    AllRead(parse, mapping, infos, n, mappings);
    return Some(mappings);
  }

  ghost predicate Serializable(serialize: MapInfo -> bytes, infos: seq<MapInfo>) {
    forall i :: 0 <= i < |infos| ==> |serialize(infos[i])| < 0x1_0000_0000
  }

  /** The entries that the loggers of the given variables write. */
  ghost function MapEntries(serialize: MapInfo -> bytes, infos: seq<MapInfo>): (entries: seq<bytes>)
    requires Serializable(serialize, infos)
    ensures |entries| == |infos| && forall i :: 0 <= i < |infos| ==> entries[i] == MapEntry(serialize(infos[i]))
  {
    if infos == [] then []
    else MapEntries(serialize, infos[..|infos|-1]) + [MapEntry(serialize(infos[|infos|-1]))]
  }

  /** The encoding of map entries, which the protobuf library provides. */
  ghost predicate Codec(serialize: MapInfo -> bytes, parse: bytes -> Option<MapInfo>, info: MapInfo) {
    parse(serialize(info)) == Some(info) && |info.types| == |info.names|
  }

  lemma MapEntryIsFrame(serialized: bytes)
    requires |serialized| < 0x1_0000_0000
    ensures IsFrame(BigEndian, MapEntry(serialized)) && MapEntry(serialized)[HEADER..] == serialized
  {
    LengthRoundTrip(|serialized|);
    assert MapEntry(serialized)[..HEADER] == BigEndianBytes(|serialized|);
  }

  /** The map file of a session reads as the entries its loggers wrote. */
  lemma MapFileParses(serialize: MapInfo -> bytes, parse: bytes -> Option<MapInfo>, infos: seq<MapInfo>)
    requires Serializable(serialize, infos) && forall i :: 0 <= i < |infos| ==> Codec(serialize, parse, infos[i])
    ensures var (entries, held) := Split(BigEndian, Join(MapEntries(serialize, infos)));
            held == [] && ParseTo(parse, entries, infos)
  {
    var entries := MapEntries(serialize, infos);
    forall i | 0 <= i < |infos| ensures IsFrame(BigEndian, entries[i]) && entries[i][HEADER..] == serialize(infos[i]) {
      MapEntryIsFrame(serialize(infos[i]));
    }
    assert Join(entries) + [] == Join(entries);
    SplitJoin(BigEndian, entries, []);
  }

  /** `File.__getitem__`: None where the name, the data file or the buffer is refused. */
  function GetItem(mappings: map<string, Mapping>, data: seq<bytes>, key: string): Option<seq<Item>> {
    if key !in mappings || mappings[key].id >= |data| then None
    else FromBuffer(mappings[key].types, data[mappings[key].id])
  }

  /**
   An archive written by loggers 0, 1, ... and read again: under every name that the last of
   its loggers has used, the reader finds exactly what that logger logged, unless it has a
   field of type `float`.
   */
  method OpenArchive(archive: Archive, serialize: MapInfo -> bytes, parse: bytes -> Option<MapInfo>,
                     ghost infos: seq<MapInfo>, ghost logs: seq<seq<Item>>)
    returns (r: Option<map<string, Mapping>>)
    requires |infos| == |logs| == |archive.data|
    requires Serializable(serialize, infos)
    requires forall i :: 0 <= i < |infos| ==> Codec(serialize, parse, infos[i]) && infos[i].id == i
    requires archive.mapping == Join(MapEntries(serialize, infos))
    requires forall i :: 0 <= i < |infos| ==>
               && (forall k :: 0 <= k < |logs[i]| ==> Loggable(infos[i].types, logs[i][k]))
               && archive.data[i] == Recorded(ToSamples(infos[i].types, logs[i]))
    ensures r == Some(Mappings(infos))
    ensures forall i :: 0 <= i < |infos| && logs[i] != [] && LastOfItsName(infos, i) ==>
              (GetItem(r.value, archive.data, infos[i].name) == Some(logs[i]) <==> Float !in infos[i].types)
  {
    MapFileParses(serialize, parse, infos);
    r := ReadMap(archive.mapping, parse, infos);
    forall i | 0 <= i < |infos| && logs[i] != [] && LastOfItsName(infos, i)
      ensures GetItem(r.value, archive.data, infos[i].name) == Some(logs[i]) <==> Float !in infos[i].types
    {
      LastOfName(infos, i);
      ReadBack(infos[i].types, logs[i]);
    }
  }
}
