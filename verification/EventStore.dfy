/** The two event stores: the in-memory reference and the JSONL file store, as objects whose methods update
    them in place (packages/event-store/src/in-memory-store.ts, packages/event-store/src/jsonl-store.ts). */
module EventStores {
  import opened Wrappers
  import opened Grouping
  import opened HashChain
  import opened EventLog

  datatype StoreError =
    | InvalidStreamId
    | EmptyAppend
    | ConcurrencyConflict
    | LockTimeout
    | InvalidVersion
    | IntegrityViolation
    | LogTooLarge
    | WriteFailed

  datatype Expected = AnyVersion | NoStream | AtVersion(version: int)

  datatype Call = Call(streamId: string, events: seq<DomainEvent>, expected: Expected, now: string)

  datatype AppendResult = AppendResult(streamId: string, fromVersion: int, toVersion: int, count: nat)

  // ---------------------------------------------------------------- streams

  function StreamOf(e: Stored): string {
    e.content.streamId
  }

  function StreamAt(streams: map<string, seq<Stored>>, streamId: string): seq<Stored> {
    if streamId in streams then streams[streamId] else []
  }

  /** Every stream list is the global log filtered by stream. */
  ghost predicate Indexed(streams: map<string, seq<Stored>>, log: seq<Stored>) {
    forall id :: StreamAt(streams, id) == Select(log, StreamOf, id)
  }

  lemma {:induction false} VersionCounts(log: seq<Stored>, streamId: string)
    ensures Version(log, streamId) == |Select(log, StreamOf, streamId)|
  {
    if log != [] {
      VersionCounts(log[..|log| - 1], streamId);
    }
  }

  ghost function Streams(batch: seq<Stored>): set<string> {
    set e | e in batch :: StreamOf(e)
  }

  /** Pushing a record onto its stream and onto the log keeps them in step. */
  lemma PushIndexed(streams: map<string, seq<Stored>>, log: seq<Stored>, e: Stored)
    requires Indexed(streams, log)
    ensures Indexed(streams[StreamOf(e) := StreamAt(streams, StreamOf(e)) + [e]], log + [e])
  {
    var streams' := streams[StreamOf(e) := StreamAt(streams, StreamOf(e)) + [e]];
    forall id
      ensures StreamAt(streams', id) == Select(log + [e], StreamOf, id)
    {
      SnocSelect(log, e, StreamOf, id);
      assert StreamAt(streams, id) == Select(log, StreamOf, id);
    }
  }

  // ---------------------------------------------------------------- what append does

  /** The checks append makes before it takes the lock. */
  function Check(version: nat, call: Call): Option<StoreError> {
    if call.streamId == "" then Some(InvalidStreamId)
    else if call.events == [] then Some(EmptyAppend)
    else
      match call.expected
      case AnyVersion => None
      case NoStream => if version != 0 then Some(ConcurrencyConflict) else None
      case AtVersion(v) => if version != v then Some(ConcurrencyConflict) else None
  }

  function Acknowledged(version: nat, call: Call): AppendResult {
    AppendResult(call.streamId, version + 1, version + |call.events|, |call.events|)
  }

  /** An append to the in-memory store. */
  function MemoryStep(s: Scheme, log: seq<Stored>, call: Call): (Result<AppendResult, StoreError>, seq<Stored>) {
    var version := Version(log, call.streamId);
    match Check(version, call)
    case Some(e) => (Err(e), log)
    case None => (Ok(Acknowledged(version, call)), log + Batch(s, log, call.streamId, call.events, call.now))
  }

  /** Writes that fail, and how many bytes reach the file first. */
  datatype Faults = Faults(newline: Option<nat>, batch: Option<nat>)

  function Reaching(data: string, fault: Option<nat>): string {
    match fault case Some(n) => if n < |data| then data[..n] else data case None => data
  }

  /** An append to a file store with this cursor: its answer, its cursor and the file afterwards. */
  function FileStep(s: Scheme, c: Codec, cursor: Cursor, file: Option<string>, locked: bool, call: Call, faults: Faults)
    : (Result<AppendResult, StoreError>, Cursor, Option<string>)
  {
    var version := Version(cursor.log, call.streamId);
    match Check(version, call)
    case Some(e) => (Err(e), cursor, file)
    case None =>
      if locked then (Err(LockTimeout), cursor, file)
      else if AdvancedExternally(file, cursor.knownSize) then (Err(ConcurrencyConflict), cursor, file)
      else if cursor.needsNewline && faults.newline.Some? then
        (Err(WriteFailed), cursor, AppendText(file, Reaching("\n", faults.newline)))
      else
        var cursor', file' := Repair(cursor), if cursor.needsNewline then AppendText(file, "\n") else file;
        var batch := CursorBatch(s, cursor, call.streamId, call.events, call.now);
        var text := Encoded(c, batch);
        if faults.batch.Some? then (Err(WriteFailed), cursor', AppendText(file', Reaching(text, faults.batch)))
        else (Ok(Acknowledged(version, call)), Advance(cursor', batch, |text|), AppendText(file', text))
  }

  function Repair(cursor: Cursor): Cursor {
    if cursor.needsNewline then cursor.(knownSize := Grown(cursor.knownSize, 1), needsNewline := false) else cursor
  }

  function Advance(cursor: Cursor, batch: seq<Stored>, bytes: nat): Cursor {
    Cursor(cursor.log + batch, cursor.nextPosition + |batch|, HeadAfter(cursor.lastHash, batch), Grown(cursor.knownSize, bytes), cursor.needsNewline)
  }

  function HeadAfter(lastHash: string, batch: seq<Stored>): string {
    if batch == [] || batch[|batch| - 1].hash == None then lastHash else batch[|batch| - 1].hash.value
  }

  // ---------------------------------------------------------------- reading

  datatype Direction = Forward | Backward

  datatype ReadOptions = ReadOptions(direction: Direction, from: Option<int>, maxCount: Option<int>)

  function Reverse<T>(xs: seq<T>): seq<T> {
    seq(|xs|, i requires 0 <= i < |xs| => xs[|xs| - 1 - i])
  }

  function Limit<T>(xs: seq<T>, maxCount: Option<int>): seq<T> {
    if maxCount.Some? && 0 <= maxCount.value < |xs| then xs[..maxCount.value] else xs
  }

  /** The filter, reversal and slice of read (by version) and readAll (by global position). */
  function Page(xs: seq<Stored>, key: Stored -> int, o: ReadOptions): seq<Stored> {
    var from := if o.from.Some? then o.from.value else 1;
    Limit(if o.direction == Forward then Filter(xs, e => key(e) >= from) else Reverse(Filter(xs, e => key(e) <= from)), o.maxCount)
  }

  function ByVersion(e: Stored): int {
    e.content.version
  }

  function ByPosition(e: Stored): int {
    e.content.globalPosition
  }

  /** read: an unknown stream reads empty before the version is even looked at. */
  function ReadStream(known: bool, stream: seq<Stored>, streamId: string, o: ReadOptions): Result<seq<Stored>, StoreError> {
    if streamId == "" then Err(InvalidStreamId)
    else if !known then Ok([])
    else if o.from.Some? && o.from.value < 1 then Err(InvalidVersion)
    else Ok(Page(stream, ByVersion, o))
  }

  /** read, as a function of the global log alone. */
  function ReadLog(log: seq<Stored>, streamId: string, o: ReadOptions): Result<seq<Stored>, StoreError> {
    var stream := Select(log, StreamOf, streamId);
    ReadStream(stream != [], stream, streamId, o)
  }

  ghost predicate NoEmptyStream(streams: map<string, seq<Stored>>) {
    forall id :: id in streams ==> streams[id] != []
  }

  /** The argument checks both stores make first. */
  method CheckCall(version: nat, call: Call) returns (refused: Option<StoreError>)
    ensures refused == Check(version, call)
  {
    if call.streamId == "" { return Some(InvalidStreamId); }
    if call.events == [] { return Some(EmptyAppend); }
    match call.expected {
      case AnyVersion =>
      case NoStream => if version != 0 { return Some(ConcurrencyConflict); }
      case AtVersion(v) => if version != v { return Some(ConcurrencyConflict); }
    }
    refused := None;
  }

  // ---------------------------------------------------------------- the in-memory store

  class InMemoryEventStore {
    const s: Scheme
    var streams: map<string, seq<Stored>>
    var globalLog: seq<Stored>
    var nextGlobalPosition: int
    var lastHash: string

    /** The indexes and cursors are those of the global log. */
    ghost predicate Valid()
      reads this
    {
      && GoodLog(s, globalLog) && Indexed(streams, globalLog) && NoEmptyStream(streams)
      && nextGlobalPosition == |globalLog| + 1 && lastHash == LastHash(globalLog)
    }

    constructor (s: Scheme)
      ensures Valid() && globalLog == [] && this.s == s
    {
      this.s := s;
      streams, globalLog, nextGlobalPosition, lastHash := map[], [], 1, GENESIS_HASH;
    }

    /** One turn of append's loop: the next record of the stream goes onto both lists. */
    method Push(streamId: string, version: int, event: DomainEvent, now: string)
      requires Valid() && version == Version(globalLog, streamId) + 1
      modifies this
      ensures Valid() && globalLog == old(globalLog) + [NextStored(s, old(globalLog), streamId, event, now)]
    {
      hide GoodLog, Indexed, LastHash, ComputeEventHash, Version;
      var content := Content(event.eventType, event.metadata, event.payload, streamId, version, nextGlobalPosition, now);
      var hash := ComputeEventHash(s, content, lastHash);
      var stored := Stored(content, Some(hash), Some(lastHash));
      NextStoredIsGood(s, globalLog, streamId, event, now);
      PushIndexed(streams, globalLog, stored);
      LastHashSnoc(globalLog, stored);
      nextGlobalPosition := nextGlobalPosition + 1;
      lastHash := hash;
      streams := streams[streamId := StreamAt(streams, streamId) + [stored]];
      globalLog := globalLog + [stored];
    }

    method Append(call: Call) returns (r: Result<AppendResult, StoreError>)
      requires Valid()
      modifies this
      ensures Valid()
      ensures (r, globalLog) == MemoryStep(s, old(globalLog), call)
    {
      hide Valid, NextStored, Version, Check;
      var version := |StreamAt(streams, call.streamId)|;
      StreamLengthIs(call.streamId);
      var refused := CheckCall(version, call);
      if refused.Some? { return Err(refused.value); }
      ghost var log := globalLog;
      assert log + [] == log;
      for i := 0 to |call.events|
        invariant globalLog == log + Batch(s, log, call.streamId, call.events[..i], call.now)
        invariant Version(globalLog, call.streamId) == version + i
        invariant Valid()
      {
        ghost var stored := NextStored(s, globalLog, call.streamId, call.events[i], call.now);
        NextVersion(s, globalLog, call.streamId, call.events[i], call.now);
        Push(call.streamId, version + i + 1, call.events[i], call.now);
        assert call.events[..i + 1][..i] == call.events[..i];
        assert log + (Batch(s, log, call.streamId, call.events[..i], call.now) + [stored]) == globalLog;
      }
      assert call.events[..|call.events|] == call.events;
      r := Ok(AppendResult(call.streamId, version + 1, version + |call.events|, |call.events|));
    }

    lemma StreamLengthIs(streamId: string)
      requires Valid()
      ensures |StreamAt(streams, streamId)| == Version(globalLog, streamId)
    {
      StreamLength(streams, globalLog, streamId);
    }

    method Read(streamId: string, o: ReadOptions) returns (r: Result<seq<Stored>, StoreError>)
      requires Valid()
      ensures r == ReadLog(globalLog, streamId, o)
    {
      hide GoodLog, LastHash, Page;
      assert StreamAt(streams, streamId) == Select(globalLog, StreamOf, streamId);
      if streamId == "" { return Err(InvalidStreamId); }
      if streamId !in streams { return Ok([]); }
      var from := if o.from.Some? then o.from.value else 1;
      if from < 1 { return Err(InvalidVersion); }
      r := Ok(Page(streams[streamId], ByVersion, o));
    }

    method ReadAll(o: ReadOptions) returns (r: seq<Stored>)
      requires Valid()
      ensures r == Page(globalLog, ByPosition, o)
    {
      r := Page(globalLog, ByPosition, o);
    }
  }

  lemma StreamLength(streams: map<string, seq<Stored>>, log: seq<Stored>, streamId: string)
    requires Indexed(streams, log)
    ensures |StreamAt(streams, streamId)| == Version(log, streamId)
  {
    VersionCounts(log, streamId);
  }

  lemma LastHashSnoc(log: seq<Stored>, e: Stored)
    requires e.hash.Some?
    ensures LastHash(log + [e]) == e.hash.value
  {
  }

  lemma NextVersion(s: Scheme, log: seq<Stored>, streamId: string, event: DomainEvent, now: string)
    ensures Version(log + [NextStored(s, log, streamId, event, now)], streamId) == Version(log, streamId) + 1
  {
    hide ComputeEventHash;
    var stored := NextStored(s, log, streamId, event, now);
    assert (log + [stored])[..|log|] == log;
  }

  // ---------------------------------------------------------------- the file store

  /** The JSONL file and its lockfile, shared by all stores on one path. */
  class Disk {
    var content: Option<string>
    var locked: bool

    constructor (content: Option<string>)
      ensures this.content == content && !locked
    {
      this.content, locked := content, false;
    }
  }

  class JsonlEventStore {
    const s: Scheme
    const c: Codec
    const disk: Disk
    var streams: map<string, seq<Stored>>
    var globalLog: seq<Stored>
    var nextGlobalPosition: int
    var lastHash: string
    var knownFileSize: Option<nat>
    var needsTrailingNewline: bool

    ghost predicate Valid()
      reads this
    {
      Indexed(streams, globalLog) && (needsTrailingNewline ==> knownFileSize.Some?)
    }

    /** What this instance remembers, as one value. */
    ghost function Contents(): Cursor
      reads this
    {
      Cursor(globalLog, nextGlobalPosition, lastHash, knownFileSize, needsTrailingNewline)
    }

    /** _loadFromFile: one pass over the lines. */
    constructor Load(s: Scheme, c: Codec, disk: Disk)
      ensures Valid() && NoEmptyStream(streams)
      ensures this.s == s && this.c == c && this.disk == disk && disk.content == old(disk.content)
      ensures Contents() == EventLog.Load(c, disk.content)
    {
      this.s, this.c, this.disk := s, c, disk;
      streams, globalLog, nextGlobalPosition, lastHash := map[], [], 1, GENESIS_HASH;
      knownFileSize, needsTrailingNewline := None, false;
      new;
      if disk.content == None { return; }
      var content := disk.content.value;
      knownFileSize := Some(|content|);
      needsTrailingNewline := |content| > 0 && content[|content| - 1] != '\n';
      var lines := Lines(content);
      ghost var records: seq<Stored> := [];
      for i := 0 to |lines|
        invariant records == Records(c, lines[..i])
        invariant globalLog == PreserveAll(records)
        invariant nextGlobalPosition == NextPosition(records) && lastHash == LastHash(records)
        invariant Indexed(streams, globalLog) && NoEmptyStream(streams)
        invariant knownFileSize == Some(|content|) && disk.content == Some(content)
        invariant needsTrailingNewline <==> !AtLineStart(content)
        modifies this
      {
        assert lines[..i + 1][..i] == lines[..i];
        var decoded := c.decode(lines[i]);
        if decoded.Some? {
          var record := decoded.value;
          LoadRecord(record, records);
          records := records + [record];
        }
      }
      assert lines[..|lines|] == lines;
    }

    /** One loaded record goes onto the indexes and moves the cursors. */
    method LoadRecord(record: Stored, ghost records: seq<Stored>)
      requires Indexed(streams, globalLog) && NoEmptyStream(streams) && globalLog == PreserveAll(records)
      requires nextGlobalPosition == NextPosition(records) && lastHash == LastHash(records)
      modifies this`streams, this`globalLog, this`nextGlobalPosition, this`lastHash
      ensures Indexed(streams, globalLog) && NoEmptyStream(streams) && globalLog == PreserveAll(records + [record])
      ensures nextGlobalPosition == NextPosition(records + [record]) && lastHash == LastHash(records + [record])
    {
      hide Indexed;
      var stored := Stored(record.content, None, None);
      if record.hash.Some? && record.previousHash.Some? {
        stored := record;
      }
      if record.hash.Some? {
        lastHash := record.hash.value;
      }
      PushIndexed(streams, globalLog, stored);
      streams := streams[StreamOf(stored) := StreamAt(streams, StreamOf(stored)) + [stored]];
      globalLog := globalLog + [stored];
      if stored.content.globalPosition >= nextGlobalPosition {
        nextGlobalPosition := stored.content.globalPosition + 1;
      }
      assert (records + [record])[..|records|] == records;
    }

    /** The constructor the caller sees: size guard, load, and verification unless opted out of. */
    static method Open(s: Scheme, c: Codec, disk: Disk, maxLoadBytes: Option<int>, verifyOnLoad: bool)
      returns (r: Result<JsonlEventStore, StoreError>)
      ensures disk.content == old(disk.content)
      ensures var tooLarge := disk.content.Some? && maxLoadBytes.Some? && |disk.content.value| > maxLoadBytes.value;
              var broken := verifyOnLoad && AllFaults(s, EventLog.Load(c, disk.content).log) != [];
              && (r == Err(LogTooLarge) <==> tooLarge) && (r == Err(IntegrityViolation) <==> !tooLarge && broken)
              && (r.Ok? <==> !tooLarge && !broken)
      ensures r.Ok? ==> fresh(r.value) && r.value.Valid() && NoEmptyStream(r.value.streams)
                        && r.value.s == s && r.value.c == c && r.value.disk == disk
                        && r.value.Contents() == EventLog.Load(c, disk.content)
    {
      hide Indexed, NoEmptyStream, EventLog.Load, AllFaults;
      if disk.content.Some? && maxLoadBytes.Some? && |disk.content.value| > maxLoadBytes.value {
        return Err(LogTooLarge);
      }
      var store := new JsonlEventStore.Load(s, c, disk);
      if verifyOnLoad {
        var report := VerifyHashChain(s, store.globalLog);
        if !report.valid {
          return Err(IntegrityViolation);
        }
      }
      r := Ok(store);
    }

    /** _writeAndSync: appends the data, or a prefix of it before throwing. */
    method WriteAndSync(data: string, fault: Option<nat>) returns (bytes: Result<nat, StoreError>)
      modifies disk`content
      ensures disk.content == AppendText(old(disk.content), Reaching(data, fault))
      ensures bytes == if fault.Some? then Err(WriteFailed) else Ok(|data|)
    {
      disk.content := AppendText(disk.content, Reaching(data, fault));
      if fault.Some? {
        return Err(WriteFailed);
      }
      bytes := Ok(|data|);
    }

    /** append's loop: records and their lines, built on local cursors only. */
    method BuildBatch(streamId: string, events: seq<DomainEvent>, now: string, version: int)
      returns (batch: seq<Stored>, lines: string, nextPosition: int, head: string)
      ensures batch == Chain(s, streamId, events, now, version, nextGlobalPosition, lastHash)
      ensures lines == Encoded(c, batch)
      ensures nextPosition == nextGlobalPosition + |batch| && head == HeadAfter(lastHash, batch)
    {
      hide ComputeEventHash, Chain;
      batch, lines, nextPosition, head := [], "", nextGlobalPosition, lastHash;
      ChainOfNone(s, streamId, now, version, nextGlobalPosition, lastHash);
      for i := 0 to |events|
        invariant batch == Chain(s, streamId, events[..i], now, version, nextGlobalPosition, lastHash)
        invariant lines == Encoded(c, batch)
        invariant nextPosition == nextGlobalPosition + i && head == HeadAfter(lastHash, batch)
      {
        var event := events[i];
        var content := Content(event.eventType, event.metadata, event.payload, streamId, version + i, nextPosition, now);
        var hash := ComputeEventHash(s, content, head);
        var stored := Stored(content, Some(hash), Some(head));
        assert events[..i + 1] == events[..i] + [event];
        ChainSnoc(s, streamId, events[..i], event, now, version, nextGlobalPosition, lastHash);
        EncodedSnoc(c, batch, stored);
        batch := batch + [stored];
        lines := lines + c.encode(stored) + "\n";
        nextPosition := nextPosition + 1;
        head := hash;
      }
      assert events[..|events|] == events;
    }

    /** After the write: the records go onto the in-memory indexes. */
    method Commit(batch: seq<Stored>)
      requires Indexed(streams, globalLog)
      modifies this`streams, this`globalLog
      ensures Indexed(streams, globalLog) && globalLog == old(globalLog) + batch
      ensures streams.Keys == old(streams.Keys) + Streams(batch)
    {
      hide Indexed;
      assert globalLog == old(globalLog) + batch[..0];
      for i := 0 to |batch|
        invariant Indexed(streams, globalLog) && globalLog == old(globalLog) + batch[..i]
        invariant streams.Keys == old(streams.Keys) + Streams(batch[..i])
      {
        var stored := batch[i];
        PushIndexed(streams, globalLog, stored);
        assert batch[..i + 1] == batch[..i] + [stored];
        streams := streams[StreamOf(stored) := StreamAt(streams, StreamOf(stored)) + [stored]];
        globalLog := globalLog + [stored];
      }
      assert batch[..|batch|] == batch;
    }

    method Append(call: Call, faults: Faults) returns (r: Result<AppendResult, StoreError>)
      requires Valid()
      modifies this, disk
      ensures Valid() && disk.locked == old(disk.locked)
      ensures (r, Contents(), disk.content) == FileStep(s, c, old(Contents()), old(disk.content), old(disk.locked), call, faults)
      ensures r.Ok? || Check(Version(old(globalLog), call.streamId), call).Some? ==> old(NoEmptyStream(streams)) ==> NoEmptyStream(streams)
    {
      hide Indexed, Chain, Encoded, NoEmptyStream, Version, HeadAfter, AdvancedExternally;
      var version := |StreamAt(streams, call.streamId)|;
      StreamLength(streams, globalLog, call.streamId);
      var refused := CheckCall(version, call);
      if refused.Some? { return Err(refused.value); }
      CreateStream(call.streamId);
      if disk.locked { return Err(LockTimeout); }
      disk.locked := true;
      r := AppendLocked(call, version, faults);
      disk.locked := false;
      if r.Ok? {
        ghost var batch := CursorBatch(s, old(Contents()), call.streamId, call.events, call.now);
        ChainCarries(s, call.streamId, call.events, call.now, version + 1, old(nextGlobalPosition), old(lastHash));
        assert Carries(batch[0], call.streamId, call.events[0]);
        if old(NoEmptyStream(streams)) {
          NoEmptyAfter(old(streams), old(globalLog), streams, batch, call.streamId);
        }
      }
    }

    method CreateStream(streamId: string)
      requires Valid()
      modifies this`streams
      ensures Valid()
      ensures streams.Keys == old(streams.Keys) + {streamId}
    {
      if streamId !in streams {
        ghost var before := streams;
        streams := streams[streamId := []];
        assert forall id :: StreamAt(streams, id) == StreamAt(before, id);
      }
    }

    /** The part of append between acquiring and releasing the lock. */
    method AppendLocked(call: Call, version: nat, faults: Faults) returns (r: Result<AppendResult, StoreError>)
      requires Valid() && version == Version(globalLog, call.streamId) && Check(version, call) == None
      modifies this, disk`content
      ensures Valid()
      ensures (r, Contents(), disk.content) == FileStep(s, c, old(Contents()), old(disk.content), false, call, faults)
      ensures r.Ok? ==> streams.Keys == old(streams.Keys) + {call.streamId}
    {
      hide Indexed, Chain, Encoded, Version, HeadAfter, Streams;
      if AdvancedExternally(disk.content, knownFileSize) {
        return Err(ConcurrencyConflict);
      }
      var batch, lines, nextPosition, head := BuildBatch(call.streamId, call.events, call.now, version + 1);
      if needsTrailingNewline {
        var repair := WriteAndSync("\n", faults.newline);
        if repair.Err? { return Err(repair.error); }
        knownFileSize := Grown(knownFileSize, repair.value);
        needsTrailingNewline := false;
      }
      var written := WriteAndSync(lines, faults.batch);
      if written.Err? { return Err(written.error); }
      nextGlobalPosition := nextPosition;
      lastHash := head;
      knownFileSize := Grown(knownFileSize, written.value);
      Commit(batch);
      StreamsOfCall(s, call, version + 1, old(nextGlobalPosition), old(lastHash));
      r := Ok(AppendResult(call.streamId, version + 1, version + |call.events|, |call.events|));
    }

    method Read(streamId: string, o: ReadOptions) returns (r: Result<seq<Stored>, StoreError>)
      requires Valid()
      ensures r == ReadStream(streamId in streams, Select(globalLog, StreamOf, streamId), streamId, o)
      ensures NoEmptyStream(streams) ==> r == ReadLog(globalLog, streamId, o)
    {
      hide Page;
      assert StreamAt(streams, streamId) == Select(globalLog, StreamOf, streamId);
      if streamId == "" { return Err(InvalidStreamId); }
      if streamId !in streams { return Ok([]); }
      var from := if o.from.Some? then o.from.value else 1;
      if from < 1 { return Err(InvalidVersion); }
      r := Ok(Page(streams[streamId], ByVersion, o));
    }

    method ReadAll(o: ReadOptions) returns (r: seq<Stored>)
      ensures r == Page(globalLog, ByPosition, o)
    {
      r := Page(globalLog, ByPosition, o);
    }
  }

  lemma StreamsOfCall(s: Scheme, call: Call, version: int, position: int, link: string)
    requires call.events != []
    ensures Streams(Chain(s, call.streamId, call.events, call.now, version, position, link)) == {call.streamId}
  {
    var batch := Chain(s, call.streamId, call.events, call.now, version, position, link);
    ChainCarries(s, call.streamId, call.events, call.now, version, position, link);
    assert batch[0] in batch && StreamOf(batch[0]) == call.streamId;
    forall e | e in batch
      ensures StreamOf(e) == call.streamId
    {
      var i :| 0 <= i < |batch| && batch[i] == e;
      assert Carries(batch[i], call.streamId, call.events[i]);
    }
  }

  /** A successful append leaves no empty stream behind. */
  lemma NoEmptyAfter(streams: map<string, seq<Stored>>, log: seq<Stored>, streams': map<string, seq<Stored>>, batch: seq<Stored>, streamId: string)
    requires Indexed(streams, log) && NoEmptyStream(streams) && Indexed(streams', log + batch)
    requires streams'.Keys == streams.Keys + {streamId} && batch != [] && StreamOf(batch[0]) == streamId
    ensures NoEmptyStream(streams')
  {
    forall id | id in streams'
      ensures streams'[id] != []
    {
      SelectConcat(log, batch, StreamOf, id);
      assert StreamAt(streams', id) == Select(log, StreamOf, id) + Select(batch, StreamOf, id);
      assert StreamAt(streams, id) == Select(log, StreamOf, id);
      SelectConcat(batch[..1], batch[1..], StreamOf, id);
      assert batch == batch[..1] + batch[1..] && batch[..1][..0] == [];
    }
  }

  lemma ChainOfNone(s: Scheme, streamId: string, now: string, version: int, position: int, link: string)
    ensures Chain(s, streamId, [], now, version, position, link) == []
  {
  }

  lemma {:induction false} ChainSnoc(s: Scheme, streamId: string, events: seq<DomainEvent>, event: DomainEvent, now: string,
                                     version: int, position: int, link: string)
    ensures var before := Chain(s, streamId, events, now, version, position, link);
            var n, head := |events|, HeadAfter(link, before);
            var content := Content(event.eventType, event.metadata, event.payload, streamId, version + n, position + n, now);
            Chain(s, streamId, events + [event], now, version, position, link)
            == before + [Stored(content, Some(ComputeEventHash(s, content, head)), Some(head))]
    decreases |events|
  {
    hide ComputeEventHash;
    if events == [] {
      assert [] + [event] == [event] && [event][1..] == [];
    } else {
      var all := Chain(s, streamId, events, now, version, position, link);
      var rest := all[1..];
      ChainCarries(s, streamId, events, now, version, position, link);
      assert (events + [event])[1..] == events[1..] + [event] && (events + [event])[0] == events[0];
      ChainSnoc(s, streamId, events[1..], event, now, version + 1, position + 1, all[0].hash.value);
      assert HeadAfter(link, all) == HeadAfter(all[0].hash.value, rest);
    }
  }

  lemma {:induction false} EncodedSnoc(c: Codec, batch: seq<Stored>, e: Stored)
    ensures Encoded(c, batch + [e]) == Encoded(c, batch) + c.encode(e) + "\n"
  {
    if batch != [] {
      assert (batch + [e])[1..] == batch[1..] + [e];
      EncodedSnoc(c, batch[1..], e);
    }
  }
}
