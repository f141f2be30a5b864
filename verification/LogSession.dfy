/**
 A session of any number of loggers, from their construction through any interleaving of
 their calls to the archive, and the reader that opens it.
 */
module LogSession {
  import opened Frames
  import opened LogReader
  import opened Options
  import opened VariableLog
  import Wire

  /** A call of `log` on one of the loggers. */
  datatype Call = Call(who: nat, item: Item)

  /** What one logger has been given, in order. */
  function LogOf(calls: seq<Call>, i: nat): seq<Item> {
    if calls == [] then []
    else
      var call := calls[|calls|-1];
      LogOf(calls[..|calls|-1], i) + if call.who == i then [call.item] else []
  }

  predicate AllLoggable(types: seq<CType>, items: seq<Item>) {
    forall k :: 0 <= k < |items| ==> Loggable(types, items[k])
  }

  /** The variables of a session: their numbers, their sizes and the encoding of their map entries. */
  ghost predicate Variables(serialize: MapInfo -> bytes, infos: seq<MapInfo>) {
    && infos != [] && Serializable(serialize, infos)
    && forall i :: 0 <= i < |infos| ==> infos[i].id == i && StructSize(infos[i].types) <= MAX_SIZE
  }

  /** Logger `i` works for variable `info`, and has logged `log`. */
  ghost predicate Serves(session: Session, l: VariableLogger, i: nat, info: MapInfo, log: seq<Item>)
    reads session, l, l.buffer
  {
    && l.session == session && l.id == i && l.size == StructSize(info.types) && l.Valid()
    && AllLoggable(info.types, log) && l.samples == ToSamples(info.types, log)
    && i in session.files && l.Intact(session.files[i])
  }

  /** The loggers are different objects with buffers of their own; their numbers tell them apart. */
  ghost predicate Apart(loggers: seq<VariableLogger>) {
    && (forall i :: 0 <= i < |loggers| ==> loggers[i].id == i)
    && (forall i, j :: 0 <= i < j < |loggers| ==> loggers[i].buffer != loggers[j].buffer)
  }

  ghost function Buffers(loggers: seq<VariableLogger>): set<array<byte>> {
    set i | 0 <= i < |loggers| :: loggers[i].buffer
  }

  /** All loggers but those that are gone serve their variables. */
  ghost predicate Serving(session: Session, loggers: seq<VariableLogger>, infos: seq<MapInfo>, logs: seq<seq<Item>>, gone: set<nat>)
    requires |loggers| <= |infos| && |loggers| <= |logs|
    reads session, loggers, Buffers(loggers)
  {
    forall i: nat :: i < |loggers| && i !in gone ==> Serves(session, loggers[i], i, infos[i], logs[i])
  }

  lemma ToSamplesMore(types: seq<CType>, log: seq<Item>, item: Item)
    requires AllLoggable(types, log) && Loggable(types, item)
    ensures AllLoggable(types, log + [item])
    ensures ToSamples(types, log + [item]) == ToSamples(types, log) + [Sample(item.time, EncodeStruct(types, item.values))]
  {
    assert (log + [item])[..|log|] == log;
  }

  /** Logs one item on one logger. */
  method LogItem(session: Session, l: VariableLogger, ghost i: nat, ghost info: MapInfo, ghost log: seq<Item>,
                 types: seq<CType>, item: Item) returns (ok: bool)
    requires session.Valid() && Serves(session, l, i, info, log) && types == info.types && Loggable(types, item)
    modifies l, l.buffer, session`files, session`script
    ensures session.Valid()
    ensures Wire.Transferring(old(session.script)) ==> ok && Wire.Transferring(session.script)
    ensures ok ==> Serves(session, l, i, info, log + [item])
    ensures forall k :: k in old(session.files) && k != i ==> k in session.files && session.files[k] == old(session.files)[k]
  {
    hide Recorded, EncodeStruct, Session.Valid;
    ok := l.Log(item.time, EncodeStruct(types, item.values));
    ToSamplesMore(types, log, item);
  }

  /** Logs one item on logger `who`; the other loggers are not affected. */
  method LogOne(session: Session, loggers: seq<VariableLogger>, ghost infos: seq<MapInfo>, ghost logs: seq<seq<Item>>,
                who: nat, types: seq<CType>, item: Item) returns (ok: bool)
    requires session.Valid() && |loggers| == |infos| == |logs| && Apart(loggers) && Serving(session, loggers, infos, logs, {})
    requires who < |loggers| && types == infos[who].types && Loggable(types, item)
    modifies loggers, Buffers(loggers), session`files, session`script
    ensures session.Valid()
    ensures Wire.Transferring(old(session.script)) ==> ok && Wire.Transferring(session.script)
    ensures ok ==> Serving(session, loggers, infos, logs[who := logs[who] + [item]], {})
  {
    hide Recorded, EncodeStruct, Session.Valid, Loggable, AllLoggable, ToSamples;
    assert Serves(session, loggers[who], who, infos[who], logs[who]);
    ok := LogItem(session, loggers[who], who, infos[who], logs[who], types, item);
    forall i | 0 <= i < |loggers| && i != who ensures Serves(session, loggers[i], i, infos[i], logs[i]) {
      assert old(Serves(session, loggers[i], i, infos[i], logs[i]));
    }
  }

  /** No log has been written yet. */
  function NoLogs(n: nat): seq<seq<Item>> {
    seq(n, _ => [])
  }

  /** Constructs the next logger of a session. */
  method CreateNext(session: Session, loggers: seq<VariableLogger>, infos: seq<MapInfo>, serialized: bytes) returns (l: VariableLogger)
    requires session.Valid() && session.created == |loggers| < |infos| && session.destroyed == 0
    requires |serialized| < 0x1_0000_0000 && StructSize(infos[|loggers|].types) <= MAX_SIZE
    requires Apart(loggers) && Serving(session, loggers, infos, NoLogs(|infos|), {})
    modifies session
    ensures session.Valid() && session.created == |loggers| + 1 && session.destroyed == 0
    ensures session.first == old(session.first) && session.archives == old(session.archives) && session.script == old(session.script)
    ensures session.mappings == (if loggers == [] then [] else old(session.mappings)) + MapEntry(serialized)
    ensures fresh(l) && fresh(l.buffer)
    ensures Apart(loggers + [l]) && Serving(session, loggers + [l], infos, NoLogs(|infos|), {})
  {
    hide Recorded, Session.Valid, MapEntry;
    l := new VariableLogger(session, serialized, StructSize(infos[|loggers|].types));
    ghost var none := NoLogs(|infos|);
    forall i | 0 <= i < |loggers| ensures Serves(session, loggers[i], i, infos[i], none[i]) {
    }
  }

  lemma BuffersMore(loggers: seq<VariableLogger>, l: VariableLogger)
    ensures Buffers(loggers + [l]) == Buffers(loggers) + {l.buffer}
  {
    var more := loggers + [l];
    assert more[|loggers|] == l && forall i :: 0 <= i < |loggers| ==> more[i] == loggers[i];
  }

  lemma NoneApart()
    ensures Apart([])
  {
  }

  lemma EntriesMore(serialize: MapInfo -> bytes, infos: seq<MapInfo>, k: nat)
    requires Serializable(serialize, infos) && k < |infos|
    ensures Join(MapEntries(serialize, infos[..k+1])) == Join(MapEntries(serialize, infos[..k])) + MapEntry(serialize(infos[k]))
    ensures Join(MapEntries(serialize, infos[..0])) == []
  {
    assert infos[..k+1][..k] == infos[..k];
    JoinAppend(MapEntries(serialize, infos[..k]), MapEntry(serialize(infos[k])));
  }

  /** Constructs the loggers of a session one after the other. */
  method Create(session: Session, serialize: MapInfo -> bytes, infos: seq<MapInfo>) returns (loggers: seq<VariableLogger>)
    requires Variables(serialize, infos)
    requires session.Valid() && session.created == session.destroyed == session.first == 0 && session.archives == []
    modifies session
    ensures session.Valid() && session.created == |infos| && session.destroyed == 0 && session.first == 0
    ensures session.archives == [] && session.script == old(session.script)
    ensures session.mappings == Join(MapEntries(serialize, infos))
    ensures |loggers| == |infos| && Apart(loggers) && Serving(session, loggers, infos, NoLogs(|infos|), {})
    ensures fresh(loggers) && fresh(Buffers(loggers))
  {
    hide Recorded, Session.Valid, MapEntry, Serves, Apart;
    loggers := [];
    assert Apart([]) by {
      NoneApart();
    }
    for k := 0 to |infos|
      invariant session.Valid() && session.created == k && session.destroyed == 0 && session.first == 0
      invariant session.archives == [] && session.script == old(session.script)
      invariant k > 0 ==> session.mappings == Join(MapEntries(serialize, infos[..k]))
      invariant |loggers| == k && Apart(loggers) && Serving(session, loggers, infos, NoLogs(|infos|), {})
      invariant fresh(loggers) && fresh(Buffers(loggers))
    {
      EntriesMore(serialize, infos, k);
      var l := CreateNext(session, loggers, infos, serialize(infos[k]));
      BuffersMore(loggers, l);
      loggers := loggers + [l];
    }
    assert infos[..|infos|] == infos;
  }

  /** What each of `n` loggers has been given. */
  function Logs(calls: seq<Call>, n: nat): seq<seq<Item>> {
    seq(n, i requires 0 <= i => LogOf(calls, i))
  }

  lemma LogsMore(calls: seq<Call>, k: nat, n: nat)
    requires k < |calls| && calls[k].who < n
    ensures var before := Logs(calls[..k], n);
            Logs(calls[..k+1], n) == before[calls[k].who := before[calls[k].who] + [calls[k].item]]
  {
    assert calls[..k+1][..k] == calls[..k];
    var before, after := Logs(calls[..k], n), Logs(calls[..k+1], n);
    forall i | 0 <= i < n ensures after[i] == before[i] + if calls[k].who == i then [calls[k].item] else [] {
    }
    assert forall i :: 0 <= i < n && i != calls[k].who ==> after[i] == before[i];
  }

  /** Any interleaving of the loggers' calls. */
  method LogAll(session: Session, loggers: seq<VariableLogger>, infos: seq<MapInfo>, calls: seq<Call>) returns (ok: bool)
    requires session.Valid() && |loggers| == |infos| && Apart(loggers) && Serving(session, loggers, infos, NoLogs(|infos|), {})
    requires forall c :: c in calls ==> c.who < |infos| && Loggable(infos[c.who].types, c.item)
    modifies loggers, Buffers(loggers), session`files, session`script
    ensures session.Valid()
    ensures Wire.Transferring(old(session.script)) ==> ok && Wire.Transferring(session.script)
    ensures ok ==> Serving(session, loggers, infos, Logs(calls, |infos|), {})
  {
    hide Serving, Session.Valid;
    ok := true;
    assert Logs([], |infos|) == NoLogs(|infos|);
    for k := 0 to |calls|
      invariant session.Valid() && Serving(session, loggers, infos, Logs(calls[..k], |infos|), {})
      invariant Wire.Transferring(old(session.script)) ==> Wire.Transferring(session.script)
    {
      assert calls[k] in calls;
      LogsMore(calls, k, |infos|);
      ok := LogOne(session, loggers, infos, Logs(calls[..k], |infos|), calls[k].who, infos[calls[k].who].types, calls[k].item);
      if !ok {
        return;
      }
    }
    assert calls[..|calls|] == calls;
  }

  /** The file of a logger that has logged `log`. */
  function FileOf(types: seq<CType>, log: seq<Item>): bytes
    requires AllLoggable(types, log)
  {
    Recorded(ToSamples(types, log))
  }

  /** Files short enough for the size kept by the copy loop. */
  ghost predicate Packable(infos: seq<MapInfo>, logs: seq<seq<Item>>) {
    && |infos| == |logs|
    && forall i :: 0 <= i < |infos| ==> AllLoggable(infos[i].types, logs[i]) && |FileOf(infos[i].types, logs[i])| < 0x1_0000_0000
  }

  /** The file of every logger that is gone holds its records. */
  ghost predicate Complete(files: map<nat, bytes>, infos: seq<MapInfo>, logs: seq<seq<Item>>, gone: set<nat>)
    requires Packable(infos, logs)
  {
    forall i: nat :: i < |infos| && i in gone ==> i in files && files[i] == FileOf(infos[i].types, logs[i])
  }

  /** The session's archive was packed from these files. */
  ghost predicate Packed(session: Session, files: map<nat, bytes>)
    reads session
  {
    && |session.archives| == 1
    && (Small(files) && |session.mappings| < 0x1_0000_0000 ==>
          session.archives[0].mapping == session.mappings && Members(files, session.archives[0].data))
  }

  /** Destroys logger `k`, which is not gone; the last one packs the files. */
  method DestroyNext(session: Session, loggers: seq<VariableLogger>, ghost infos: seq<MapInfo>, ghost logs: seq<seq<Item>>,
                     ghost gone: set<nat>, k: nat)
    returns (ok: bool, ghost final: map<nat, bytes>)
    requires session.Valid() && session.destroyed < session.created == |loggers| == |infos| && k < |loggers| && k !in gone
    requires session.archives == []
    requires Packable(infos, logs) && Apart(loggers) && Serving(session, loggers, infos, logs, gone)
    modifies session, loggers
    ensures Wire.Transferring(old(session.script)) ==> ok && Wire.Transferring(session.script)
    ensures session.created == old(session.created) && session.mappings == old(session.mappings)
    ensures ok ==> session.destroyed == old(session.destroyed) + 1
    ensures ok ==> final == old(session.files)[k := FileOf(infos[k].types, logs[k])]
    ensures ok && session.destroyed < |loggers| ==>
              && session.Valid() && session.first == old(session.first) && session.archives == [] && session.files == final
              && Serving(session, loggers, infos, logs, gone + {k})
    ensures ok && session.destroyed == |loggers| ==> Packed(session, final)
  {
    hide Recorded, Small, Members, Session.Valid;
    final := map[];
    assert Serves(session, loggers[k], k, infos[k], logs[k]);
    ghost var file;
    ok, file := loggers[k].Destroy();
    if ok {
      final := old(session.files)[k := file];
      if session.destroyed < |loggers| {
        forall i: nat | i < |loggers| && i !in gone + {k} ensures Serves(session, loggers[i], i, infos[i], logs[i]) {
          assert old(Serves(session, loggers[i], i, infos[i], logs[i]));
        }
      }
    }
  }

  /** Every number below `n` once. */
  ghost predicate Permutation(order: seq<nat>, n: nat) {
    && |order| == n && (forall i: nat :: i < n <==> i in order)
    && forall i, j :: 0 <= i < j < |order| ==> order[i] != order[j]
  }

  function Gone(order: seq<nat>): set<nat> {
    set i | i in order
  }

  lemma GoneNext(order: seq<nat>, j: nat)
    requires Permutation(order, |order|) && j < |order|
    ensures order[j] < |order| && order[j] !in Gone(order[..j]) && Gone(order[..j+1]) == Gone(order[..j]) + {order[j]}
  {
    assert order[j] in order && order[..j+1] == order[..j] + [order[j]];
  }

  lemma CompleteArchive(files: map<nat, bytes>, data: seq<bytes>, infos: seq<MapInfo>, logs: seq<seq<Item>>, gone: set<nat>)
    requires Packable(infos, logs) && infos != [] && FilesOf(files, 0, |infos|) && Complete(files, infos, logs, gone)
    requires forall i: nat :: i < |infos| ==> i in gone
    ensures Small(files)
    ensures Members(files, data) ==>
              |data| == |infos| && forall i :: 0 <= i < |infos| ==> data[i] == FileOf(infos[i].types, logs[i])
  {
    if Members(files, data) {
      ArchiveIsComplete(files, data, 0, |infos|);
    }
  }

  /** Destroys the loggers in any order; the archive then holds the whole of every log. */
  method DestroyAll(session: Session, loggers: seq<VariableLogger>, ghost infos: seq<MapInfo>, ghost logs: seq<seq<Item>>, order: seq<nat>)
    returns (ok: bool, archive: Archive)
    requires session.Valid() && session.created == |loggers| == |infos| > 0 && session.destroyed == 0 && session.first == 0
    requires session.archives == [] && |session.mappings| < 0x1_0000_0000
    requires |infos| == |logs| && Packable(infos, logs) && Apart(loggers) && Serving(session, loggers, infos, logs, {})
    requires Permutation(order, |loggers|)
    modifies session, loggers
    ensures Wire.Transferring(old(session.script)) ==> ok
    ensures ok ==> archive.mapping == old(session.mappings) && |archive.data| == |infos|
    ensures ok ==> forall i :: 0 <= i < |infos| ==> archive.data[i] == FileOf(infos[i].types, logs[i])
  {
    hide FileOf, Small, Members, Apart, Serving, Packable;
    ok, archive := true, Archive([], []);
    ghost var final: map<nat, bytes> := session.files;
    var n := |loggers|;
    assert Gone(order[..0]) == {};
    for j := 0 to n
      invariant session.created == n && session.destroyed == j && session.mappings == old(session.mappings)
      invariant Wire.Transferring(old(session.script)) ==> Wire.Transferring(session.script)
      invariant FilesOf(final, 0, n) && Complete(final, infos, logs, Gone(order[..j]))
      invariant j < n ==> session.Valid() && session.first == 0 && session.archives == [] && final == session.files
      invariant j < n ==> Serving(session, loggers, infos, logs, Gone(order[..j]))
      invariant j == n ==> Packed(session, final)
    {
      GoneNext(order, j);
      ok, final := DestroyNext(session, loggers, infos, logs, Gone(order[..j]), order[j]);
      if !ok {
        return;
      }
    }
    assert order[..n] == order;
    archive := session.archives[0];
    CompleteArchive(final, archive.data, infos, logs, Gone(order));
  }

  /**
   A whole session and the reader after it.  For every script of partial writes, every
   interleaving of the loggers' calls and every order of their destruction, the reader finds
   under the name that the last of its loggers has used exactly what that logger was given,
   unless it has a field of type `float`.
   */
  method RunSession(infos: seq<MapInfo>, serialize: MapInfo -> bytes, parse: bytes -> Option<MapInfo>,
                    calls: seq<Call>, order: seq<nat>, script: seq<Wire.Event>)
    returns (ok: bool, archive: Archive, r: Option<map<string, Mapping>>)
    requires Variables(serialize, infos) && forall i :: 0 <= i < |infos| ==> Codec(serialize, parse, infos[i])
    requires Permutation(order, |infos|)
    requires forall c :: c in calls ==> c.who < |infos| && Loggable(infos[c.who].types, c.item)
    requires Packable(infos, Logs(calls, |infos|)) && |Join(MapEntries(serialize, infos))| < 0x1_0000_0000
    ensures Wire.Transferring(script) ==> ok
    ensures ok ==> r == Some(Mappings(infos))
    ensures ok ==> forall i :: 0 <= i < |infos| && LogOf(calls, i) != [] && LastOfItsName(infos, i) ==>
              (GetItem(r.value, archive.data, infos[i].name) == Some(LogOf(calls, i)) <==> Float !in infos[i].types)
  {
    hide Serving, Apart, Session.Valid, Complete, Mappings, GetItem, Permutation;
    r, archive := None, Archive([], []);
    var session := new Session(script);
    var loggers := Create(session, serialize, infos);
    ok := LogAll(session, loggers, infos, calls);
    if ok {
      ok, archive := DestroyAll(session, loggers, infos, Logs(calls, |infos|), order);
    }
    if ok {
      r := OpenArchive(archive, serialize, parse, infos, Logs(calls, |infos|));
    }
  }
}
