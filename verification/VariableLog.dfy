/**
 The binary log: every logger buffers time-stamped records of a fixed size and writes them to
 a file of its own; the layouts go to a common map file.  When the last logger is destroyed
 the files are packed into an archive.
 */
module VariableLog {
  import opened Division
  import opened Frames
  import opened Wire

  const BUFFER_LENGTH := 8192
  const TIME_LENGTH := 8
  const MAX_SIZE := 8184
  const COPY_LENGTH := 4096

  /** Little-endian bytes of a number, and back. */
  function Bytes(n: nat, width: nat): (b: bytes)
    ensures |b| == width
  {
    if width == 0 then [] else [n % 256] + Bytes(n / 256, width - 1)
  }

  function Number(b: bytes): nat {
    if b == [] then 0 else b[0] as int + 256 * Number(b[1..])
  }

  /** 256 to the power of `width`. */
  function Range(width: nat): (r: nat)
    ensures r >= 1
  {
    if width == 0 then 1 else 256 * Range(width - 1)
  }

  lemma {:induction false} NumberOfBytes(n: nat, width: nat)
    requires n < Range(width)
    ensures Number(Bytes(n, width)) == n
  {
    if width > 0 {
      NumberOfBytes(n / 256, width - 1);
      assert Bytes(n, width)[1..] == Bytes(n / 256, width - 1);
    }
  }

  /** Each byte of a number is its quotient by a power of 256, the lowest first. */
  lemma {:induction false} BytesAt(n: nat, width: nat, k: nat)
    requires k < width
    ensures Bytes(n, width)[k] == n / Range(k) % 256
  {
    if k > 0 {
      BytesAt(n / 256, width - 1, k - 1);
      QuotientOfQuotient(n, 256, Range(k - 1));
    }
  }

  /** The lengths of frames are such numbers, and those of map entries the same bytes in the opposite order. */
  lemma LengthBytes(n: nat)
    requires n < 0x1_0000_0000
    ensures LittleEndianBytes(n) == Bytes(n, 4)
    ensures forall k :: 0 <= k < 4 ==> BigEndianBytes(n)[k] == Bytes(n, 4)[3-k]
  {
    assert n / 256 / 256 == n / 0x1_0000 && n / 0x1_0000 / 256 == n / 0x100_0000;
    assert Bytes(n / 0x100_0000, 1) == [n / 0x100_0000 % 256] + Bytes(n / 0x100_0000 / 256, 0);
    assert Bytes(n / 0x1_0000, 2) == [n / 0x1_0000 % 256] + Bytes(n / 0x100_0000, 1);
    assert Bytes(n / 0x100, 3) == [n / 0x100 % 256] + Bytes(n / 0x1_0000, 2);
  }

  datatype Sample = Sample(time: nat, data: bytes)

  /** One record: the time in eight bytes and the variable as it lies in memory. */
  function Record(s: Sample): bytes {
    Bytes(s.time, TIME_LENGTH) + s.data
  }

  function Recorded(samples: seq<Sample>): bytes {
    if samples == [] then [] else Recorded(samples[..|samples|-1]) + Record(samples[|samples|-1])
  }

  lemma RecordedMore(samples: seq<Sample>, s: Sample)
    ensures Recorded(samples + [s]) == Recorded(samples) + Record(s)
  {
    assert (samples + [s])[..|samples|] == samples;
  }

  lemma RecordedNone()
    ensures Recorded([]) == []
  {
  }

  lemma {:induction false} RecordedSplit(samples: seq<Sample>, k: nat)
    requires k <= |samples|
    ensures Recorded(samples) == Recorded(samples[..k]) + Recorded(samples[k..])
  {
    hide Recorded, Record;
    RecordedNone();
    if k == |samples| {
      assert samples[..k] == samples && samples[k..] == [];
    } else {
      var n := |samples| - 1;
      var init, last := samples[..n], samples[n];
      RecordedSplit(init, k);
      RecordedMore(init, last);
      RecordedMore(init[k..], last);
      assert init + [last] == samples && init[k..] + [last] == samples[k..] && init[..k] == samples[..k];
    }
  }

  /** What a flush of `n` bytes does under a script: whether it completes, the bytes it writes, and the script after it. */
  function Flushes(script: seq<Event>, n: nat): (r: (bool, nat, seq<Event>))
    ensures r.1 <= n && (r.0 ==> r.1 == n)
    ensures Transferring(script) ==> r.0 && Transferring(r.2)
    decreases |script|
  {
    if n == 0 then (true, 0, script)
    else
      match Outcome(script, n)
      case Got(k) =>
        if script == [] then (true, n, [])
        else
          var (ok, written, rest) := Flushes(Rest(script), n - k);
          (ok, k + written, rest)
      case _ => (false, 0, Rest(script))
  }

  /** Bytes written before a flush goes on. */
  function Plus(k: nat, r: (bool, nat, seq<Event>)): (bool, nat, seq<Event>) {
    (r.0, k + r.1, r.2)
  }

  /** The first write of a flush. */
  lemma FlushesNext(script: seq<Event>, n: nat)
    ensures n == 0 ==> Flushes(script, n) == (true, 0, script)
    ensures n > 0 ==>
              if Outcome(script, n).Got? then
                var k := Outcome(script, n).n;
                k <= n && Flushes(script, n) == Plus(k, Flushes(Rest(script), n - k))
              else Flushes(script, n) == (false, 0, Rest(script))
  {
  }

  /** What is packed: the map file and the data files 0, 1, ... */
  datatype Archive = Archive(mapping: bytes, data: seq<bytes>)

  /** An entry of the map file. */
  function MapEntry(serialized: bytes): bytes
    requires |serialized| < 0x1_0000_0000
  {
    BigEndianBytes(|serialized|) + serialized
  }

  /** The files numbered from zero up to the first that is missing. */
  ghost predicate Members(files: map<nat, bytes>, data: seq<bytes>) {
    |data| !in files && forall i :: 0 <= i < |data| ==> i in files && data[i] == files[i]
  }

  ghost predicate Small(files: map<nat, bytes>) {
    forall k :: k in files ==> |files[k]| < 0x1_0000_0000
  }

  /** The files of a session: one for every logger created since it began. */
  ghost predicate FilesOf(files: map<nat, bytes>, first: nat, created: nat) {
    forall k :: k in files <==> first <= k < created
  }

  /** The state shared by the loggers: the counters and the directory of the session. */
  class Session {
    var created: nat
    var destroyed: nat
    var mappings: bytes
    var files: map<nat, bytes>
    var archives: seq<Archive>
    /** How the writes to the files go. */
    var script: seq<Event>
    /** The number of the session's first logger. */
    ghost var first: nat

    constructor (script: seq<Event>)
      ensures Valid() && created == destroyed == first == 0 && mappings == [] && archives == [] && this.script == script
    {
      created, destroyed, mappings, files, archives := 0, 0, [], map[], [];
      this.script, first := script, 0;
    }

    /** The directory holds one file for every logger created since the session began. */
    ghost predicate Valid()
      reads this
    {
      destroyed <= created && first <= created && FilesOf(files, first, created) && (created == destroyed ==> first == created)
    }

    /** The part of a logger's construction that is guarded by the lock. */
    method Register(serialized: bytes) returns (id: nat)
      requires Valid() && |serialized| < 0x1_0000_0000
      modifies `created, `mappings, `files
      ensures Valid()
      ensures id == old(created) && created == old(created) + 1
      ensures old(created) != destroyed ==> mappings == old(mappings) + MapEntry(serialized) && files == old(files)[id := []]
      ensures old(created) == destroyed ==> mappings == MapEntry(serialized) && files == map[id := []]
    {
      if created == destroyed {
        mappings, files := [], map[];
      }
      id := created;
      created := created + 1;
      mappings := mappings + (BigEndianBytes(|serialized|) + serialized);
      files := files[id := []];
    }

    /** `write`: appends a prefix of `data` to a file. */
    method Write(id: nat, data: bytes) returns (r: Count)
      requires id in files
      modifies `files, `script
      ensures old(Valid()) ==> Valid()
      ensures r == Outcome(old(script), |data|) && script == Rest(old(script))
      ensures files == if r.Got? then old(files)[id := old(files[id]) + data[..Min(r.n, |data|)]] else old(files)
    {
      r := Outcome(script, |data|);
      script := Rest(script);
      if r.Got? {
        files := files[id := files[id] + data[..Min(r.n, |data|)]];
      }
    }

    /** The copy loop of `archive_add`.  The size is kept in 32 bits. */
    method ArchiveAdd(file: bytes) returns (copy: bytes)
      ensures copy == file[..|file| % 0x1_0000_0000]
    {
      copy := [];
      ghost var all: nat := |file| % 0x1_0000_0000;
      var size := |file| % 0x1_0000_0000;
      while size > 0
        invariant 0 <= size <= all && copy == file[..all-size]
      {
        var n := if size > COPY_LENGTH then COPY_LENGTH else size;
        var read := file[|copy|..|copy|+n];
        copy := copy + read;
        size := size - n;
      }
    }

    /** The loop of `clean_variable_logging` over the files numbered from zero. */
    method Pack() returns (archive: Archive)
      ensures Small(files) && |mappings| < 0x1_0000_0000 ==> archive.mapping == mappings && Members(files, archive.data)
    {
      var mapping := ArchiveAdd(mappings);
      var data: seq<bytes>, current: nat := [], 0;
      ghost var left := files.Keys;
      while current in files
        invariant |data| == current && forall k :: k in files && k >= current ==> k in left
        invariant Small(files) ==> forall i :: 0 <= i < current ==> i in files && data[i] == files[i]
        decreases |left|
      {
        var copy := ArchiveAdd(files[current]);
        data := data + [copy];
        left := left - {current};
        current := current + 1;
      }
      return Archive(mapping, data);
    }

    /** The end of a logger's destruction: the last one packs the files and removes the directory. */
    method Unregister()
      requires Valid() && destroyed < created
      modifies `destroyed, `files, `archives, `first
      ensures Valid() && destroyed == old(destroyed) + 1
      ensures created != destroyed ==> files == old(files) && archives == old(archives) && first == old(first)
      ensures created == destroyed ==> files == map[] && |archives| == |old(archives)| + 1 && archives[..|old(archives)|] == old(archives)
      ensures created == destroyed && Small(old(files)) && |mappings| < 0x1_0000_0000 ==>
                archives[|old(archives)|].mapping == mappings && Members(old(files), archives[|old(archives)|].data)
    {
      destroyed := destroyed + 1;
      if destroyed != created {
        return;
      }
      var archive := Pack();
      archives := archives + [archive];
      files, first := map[], created;
    }
  }

  /**
   The numbers of the loggers are not reset between sessions, but packing begins at zero: the
   data of the first session is archived completely, that of any later one not at all.
   */
  lemma ArchiveIsComplete(files: map<nat, bytes>, data: seq<bytes>, first: nat, created: nat)
    requires FilesOf(files, first, created) && first < created && Members(files, data)
    ensures |data| == created - first <==> first == 0
    ensures first == 0 ==> forall i :: 0 <= i < created ==> data[i] == files[i]
    ensures first != 0 ==> data == []
  {
    if |data| > 0 {
      assert data[0] == files[0];
    }
    assert |data| > created ==> created in files;
  }

  lemma AppendMore(file: bytes, data: bytes, k: nat, n: nat)
    requires k + n <= |data|
    ensures file + data[..k] + data[k..][..n] == file + data[..k+n]
  {
    TakeMore(data, k, n);
    assert file + data[..k] + data[k..][..n] == file + (data[..k] + data[k..][..n]);
  }

  class VariableLogger {
    const session: Session
    const id: nat
    const size: nat
    const buffer: array<byte>
    var ptr: nat
    /** Everything logged, and how much of it has been flushed. */
    ghost var samples: seq<Sample>
    ghost var flushed: nat

    /** `serialized` is the map entry of the variable. */
    constructor (session: Session, serialized: bytes, size: nat)
      requires session.Valid() && |serialized| < 0x1_0000_0000 && size <= MAX_SIZE
      modifies session
      ensures session.Valid() && session.destroyed == old(session.destroyed) && session.created == id + 1
      ensures Valid() && samples == [] && ptr == 0 && Intact([]) && fresh(buffer)
      ensures this.session == session && this.size == size && id == old(session.created)
      ensures session.first == old(session.first) && session.archives == old(session.archives)
      ensures session.mappings == (if old(session.created == session.destroyed) then [] else old(session.mappings)) + MapEntry(serialized)
      ensures session.script == old(session.script)
      ensures session.files == (if old(session.created == session.destroyed) then map[] else old(session.files))[id := []]
    {
      this.session, this.size, ptr := session, size, 0;
      buffer := new byte[BUFFER_LENGTH];
      samples, flushed := [], 0;
      var n := session.Register(serialized);
      id := n;
    }

    /** The live part of the buffer holds the records that have not been flushed. */
    ghost predicate Valid()
      reads this, buffer
    {
      && buffer.Length == BUFFER_LENGTH && size <= MAX_SIZE && ptr <= BUFFER_LENGTH
      && (forall s :: s in samples ==> |s.data| == size)
      && flushed <= |samples| && buffer[..ptr] == Recorded(samples[flushed..])
    }

    /** A file that holds the flushed records, whole and in order, and nothing else. */
    ghost predicate Intact(file: bytes)
      requires flushed <= |samples|
      reads this
    {
      file == Recorded(samples[..flushed])
    }

    /** Such a file followed by the live part of the buffer is every record in order. */
    lemma Everything(file: bytes)
      requires Valid()
      ensures Intact(file) <==> file + buffer[..ptr] == Recorded(samples)
    {
      RecordedSplit(samples, flushed);
      var all, live := Recorded(samples), Recorded(samples[flushed..]);
      assert all[..|all|-|live|] == Recorded(samples[..flushed]);
      assert (file + live)[..|file|] == file;
    }

    /**
     `flush`: partial writes are continued; any error ends it, with the buffer as it was and
     the bytes written so far in the file.
     */
    method Flush() returns (ok: bool, ghost written: nat)
      requires Valid() && id in session.files
      modifies `ptr, `flushed, session`files, session`script
      ensures Valid() && (old(session.Valid()) ==> session.Valid())
      ensures (ok, written, session.script) == Flushes(old(session.script), old(ptr))
      ensures session.files == old(session.files)[id := old(session.files[id]) + old(buffer[..ptr])[..written]]
      ensures if ok then ptr == 0 && flushed == |samples| else ptr == old(ptr) && flushed == old(flushed)
    {
      hide Recorded, Flushes, Session.Valid;
      ghost var file, live := session.files[id], buffer[..ptr];
      assert file + live[..0] == file;
      FlushedBuffer();
      FlushesNext(session.script, ptr);
      if ptr == 0 {
        flushed := |samples|;
        return true, 0;
      }
      var total := 0;
      while ptr - total != 0
        invariant old(session.Valid()) ==> session.Valid()
        invariant total <= ptr == old(ptr) && flushed == old(flushed)
        invariant session.files == old(session.files)[id := file + live[..total]]
        invariant Flushes(old(session.script), ptr) == Plus(total, Flushes(session.script, ptr - total))
        decreases ptr - total, |session.script|
      {
        FlushesNext(session.script, ptr - total);
        var len := session.Write(id, buffer[total..ptr]);
        if !len.Got? {
          assert Flushes(old(session.script), ptr) == Plus(total, (false, 0, session.script));
          return false, total;
        }
        assert buffer[total..ptr] == live[total..];
        AppendMore(file, live, total, len.n);
        total := total + len.n;
      }
      FlushesNext(session.script, 0);
      ptr, flushed := 0, |samples|;
      return true, total;
    }

    lemma FlushedBuffer()
      ensures |samples[|samples|..]| == 0 && Recorded(samples[|samples|..]) == buffer[..0]
    {
    }

    /** After a completed flush an intact file holds every record. */
    lemma FlushedFile(file: bytes, before: bytes, live: bytes)
      requires Valid() && ptr == 0 && flushed == |samples| && before + live == Recorded(samples) && file == before + live
      ensures Intact(file)
    {
      assert samples[..flushed] == samples;
    }

    /** `log`: flushes when the record would not fit, and appends it to the buffer. */
    method Log(time: nat, variable: bytes) returns (ok: bool)
      requires Valid() && id in session.files && |variable| == size && time < Range(TIME_LENGTH)
      modifies `ptr, `flushed, `samples, buffer, session`files, session`script
      ensures Valid() && id in session.files && (old(session.Valid()) ==> session.Valid())
      ensures samples == if ok then old(samples) + [Sample(time, variable)] else old(samples)
      ensures ok && old(Intact(session.files[id])) ==> Intact(session.files[id])
      ensures session.files == old(session.files)[id := session.files[id]]
      ensures old(ptr) + TIME_LENGTH + size <= BUFFER_LENGTH ==>
                ok && session.files == old(session.files) && session.script == old(session.script)
      ensures Transferring(old(session.script)) ==> ok && Transferring(session.script)
    {
      ok := true;
      if ptr + size + TIME_LENGTH > BUFFER_LENGTH {
        ghost var before, live := session.files[id], buffer[..ptr];
        Everything(before);
        ghost var written;
        ok, written := Flush();
        if !ok {
          return;
        }
        assert live[..written] == live;
        if before + live == Recorded(samples) {
          FlushedFile(session.files[id], before, live);
        }
      }
      Append(time, variable);
    }

    /** The rest of `log`: the time and the variable are copied to the pointer, which advances past them. */
    method Append(time: nat, variable: bytes)
      requires Valid() && |variable| == size && ptr + size + TIME_LENGTH <= BUFFER_LENGTH
      modifies `ptr, `samples, buffer
      ensures Valid() && samples == old(samples) + [Sample(time, variable)]
      ensures samples[..flushed] == old(samples[..flushed])
    {
      ghost var whole, live := buffer[..ptr], samples[flushed..];
      Store(Bytes(time, TIME_LENGTH));
      Store(variable);
      samples := samples + [Sample(time, variable)];
      RecordedMore(live, Sample(time, variable));
      assert samples[flushed..] == live + [Sample(time, variable)];
      assert samples[..flushed] == old(samples)[..flushed];
    }

    /** Copies bytes to the pointer and advances it. */
    method Store(data: bytes)
      requires buffer.Length == BUFFER_LENGTH && ptr + |data| <= BUFFER_LENGTH
      modifies `ptr, buffer
      ensures ptr == old(ptr) + |data| && buffer[..ptr] == old(buffer[..ptr]) + data
    {
      forall i | 0 <= i < |data| {
        buffer[ptr+i] := data[i];
      }
      ptr := ptr + |data|;
    }

    /** The destructor: after it an intact file holds every record, and the last logger packs the files. */
    method Destroy() returns (ok: bool, ghost file: bytes)
      requires Valid() && id in session.files && session.Valid() && session.destroyed < session.created
      modifies `ptr, `flushed, session
      ensures Transferring(old(session.script)) ==> ok && Transferring(session.script)
      ensures ok && old(Intact(session.files[id])) ==> file == Recorded(samples)
      ensures ok ==> session.Valid() && session.destroyed == old(session.destroyed) + 1
      ensures session.created == old(session.created) && session.mappings == old(session.mappings)
      ensures ok && session.created != session.destroyed ==>
                && session.files == old(session.files)[id := file]
                && session.first == old(session.first) && session.archives == old(session.archives)
      ensures ok && session.created == session.destroyed ==>
                && |session.archives| == |old(session.archives)| + 1 && session.archives[..|old(session.archives)|] == old(session.archives)
                && var archive, files := session.archives[|old(session.archives)|], old(session.files)[id := file];
                   Small(files) && |session.mappings| < 0x1_0000_0000 ==>
                     archive.mapping == session.mappings && Members(files, archive.data)
    {
      file := [];
      ghost var before, live := session.files[id], buffer[..ptr];
      Everything(before);
      ghost var written;
      ok, written := Flush();
      if ok {
        assert live[..written] == live;
        file := session.files[id];
        session.Unregister();
      }
    }
  }

  /**
   A flush that fails and is tried again writes the bytes of the first attempt once more: the
   file is what it should be exactly if there were none.
   */
  method FlushTwice(logger: VariableLogger) returns (first: bool, ghost written: nat, second: bool)
    requires logger.Valid() && logger.id in logger.session.files && logger.Intact(logger.session.files[logger.id])
    modifies logger, logger.session`files, logger.session`script
    ensures logger.Valid() && logger.samples == old(logger.samples) && logger.id in logger.session.files
    ensures (first, written) == (Flushes(old(logger.session.script), old(logger.ptr)).0, Flushes(old(logger.session.script), old(logger.ptr)).1)
    ensures !first ==> second == Flushes(Flushes(old(logger.session.script), old(logger.ptr)).2, old(logger.ptr)).0
    ensures !first && second ==> logger.ptr == 0 && (logger.session.files[logger.id] == Recorded(logger.samples) <==> written == 0)
  {
    ghost var before, live := logger.session.files[logger.id], logger.buffer[..logger.ptr];
    logger.Everything(before);
    first, written := logger.Flush();
    ghost var again;
    second, again := logger.Flush();
    if !first && second {
      assert live[..again] == live;
      var file := logger.session.files[logger.id];
      assert file == before + live[..written] + live && |file| == |before + live| + written;
      assert written == 0 ==> before + live[..written] == before;
    }
  }

  lemma OneRecord()
    ensures |Recorded([Sample(0, [])])| == TIME_LENGTH
    ensures Flushes([Transfer(1), Break], TIME_LENGTH) == (false, 1, []) && Flushes([], TIME_LENGTH) == (true, TIME_LENGTH, [])
  {
    assert Recorded([Sample(0, [])]) == [] + Record(Sample(0, []));
    assert Rest([Transfer(1), Break]) == [Break] && Flushes([Break], TIME_LENGTH - 1) == (false, 0, []);
  }

  /** A run in which that happens: one byte of the record is written before the error. */
  method SpoiledFile() returns (logger: VariableLogger)
    ensures logger.samples == [Sample(0, [])] && logger.Valid() && logger.ptr == 0 && logger.id in logger.session.files
    ensures logger.session.files[logger.id] != Recorded(logger.samples)
  {
    hide Recorded, Flushes;
    var session := new Session([Transfer(1), Break]);
    logger := new VariableLogger(session, [], 0);
    var ok := logger.Log(0, []);
    assert logger.samples == [Sample(0, [])];
    logger.Everything(session.files[logger.id]);
    OneRecord();
    var first, written, second := FlushTwice(logger);
  }

  /** What is packed of the only file of a session. */
  lemma OneFile(file: bytes, data: seq<bytes>, first: nat)
    requires |file| == TIME_LENGTH
    ensures Small(map[first := file]) && |MapEntry([])| < 0x1_0000_0000
    ensures Members(map[first := file], data) ==> data == if first == 0 then [file] else []
  {
    if Members(map[first := file], data) {
      ArchiveIsComplete(map[first := file], data, first, first + 1);
    }
  }

  /** A session of one logger with one record. */
  method OneLogger(session: Session)
    requires session.Valid() && session.created == session.destroyed && Transferring(session.script)
    modifies session
    ensures session.Valid() && session.created == session.destroyed == old(session.created) + 1 && Transferring(session.script)
    ensures |session.archives| == |old(session.archives)| + 1 && session.archives[..|old(session.archives)|] == old(session.archives)
    ensures session.archives[|old(session.archives)|].data == if old(session.created) == 0 then [Recorded([Sample(0, [])])] else []
  {
    hide Recorded, MapEntry, Members, Small;
    var first := session.created;
    var logger := new VariableLogger(session, [], 0);
    assert session.files == map[first := []] && logger.Intact(session.files[first]);
    var ok := logger.Log(0, []);
    assert logger.samples == [Sample(0, [])];
    ghost var files, file := session.files, [];
    ok, file := logger.Destroy();
    assert files[first := file] == map[first := file];
    OneRecord();
    OneFile(file, session.archives[|session.archives|-1].data, first);
  }

  /** Two sessions of one logger each with one record: the archive of the second holds no data. */
  method TwoSessions() returns (session: Session)
    ensures |session.archives| == 2
    ensures session.archives[0].data == [Recorded([Sample(0, [])])] && session.archives[1].data == []
  {
    session := new Session([]);
    OneLogger(session);
    OneLogger(session);
  }
}
