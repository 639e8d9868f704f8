/** Sequential use of the stores: the file store refines the in-memory store, reopening rebuilds it, its reads
    are exact, and a failed write seals the instance (packages/event-store/src/jsonl-store.ts,
    packages/event-store/src/in-memory-store.ts). */
module StoreRuns {
  import opened Wrappers
  import opened Grouping
  import opened HashChain
  import opened EventLog
  import opened EventStores

  const NO_FAULTS := Faults(None, None)

  /** A cursor that is exactly what loading the file gives, over a good log. */
  ghost predicate Fresh(s: Scheme, c: Codec, cursor: Cursor, file: Option<string>) {
    cursor == Load(c, file) && GoodLog(s, Events(c, Text(file)))
  }

  /** A cursor that continues the file: as good as a fresh one. It may know no size for an empty file. */
  ghost predicate Current(s: Scheme, c: Codec, cursor: Cursor, file: Option<string>) {
    && cursor.log == Events(c, Text(file)) && GoodLog(s, cursor.log)
    && cursor.nextPosition == |cursor.log| + 1 && cursor.lastHash == LastHash(cursor.log)
    && cursor.needsNewline == !AtLineStart(Text(file))
    && (match cursor.knownSize case Some(n) => file.Some? && n == |Text(file)| case None => Text(file) == "")
  }

  /** The file holds more than the instance knows of. */
  predicate Sealed(cursor: Cursor, file: Option<string>) {
    AdvancedExternally(file, cursor.knownSize)
  }

  lemma FreshIsCurrent(s: Scheme, c: Codec, cursor: Cursor, file: Option<string>)
    requires LawfulCodec(c) && Fresh(s, c, cursor, file)
    ensures Current(s, c, cursor, file)
  {
    hide Events, GoodLog, LawfulCodec, LastHash, PreserveAll, NextPosition;
    LoadGood(s, c, file);
  }

  // ---------------------------------------------------------------- one append

  /** The file after a whole append. */
  lemma AppendedFile(s: Scheme, c: Codec, cursor: Cursor, file: Option<string>, batch: seq<Stored>)
    requires LawfulCodec(c) && Current(s, c, cursor, file) && GoodLog(s, cursor.log + batch) && batch != []
    requires forall k :: 0 <= k < |batch| ==> batch[k].hash.Some?
    ensures var text := Encoded(c, batch);
            var file' := if cursor.needsNewline then AppendText(file, "\n") else file;
            Fresh(s, c, Advance(Repair(cursor), batch, |text|), AppendText(file', text))
  {
    hide Events, GoodLog, LawfulCodec, Encoded, LastHash, PreserveAll, NextPosition;
    var log, text := cursor.log, Encoded(c, batch);
    var base := if AtLineStart(Text(file)) then Text(file) else Text(file) + "\n";
    NewlineKeepsEvents(c, Text(file));
    EventsAppended(c, base, batch);
    EncodedAtLineStart(c, batch);
    LoadGood(s, c, Some(base + text));
    LastHashAfter(log, batch);
    assert text != "" by { assert batch != []; NonEmptyText(c, batch); }
  }

  lemma NonEmptyText(c: Codec, batch: seq<Stored>)
    requires batch != []
    ensures Encoded(c, batch) != ""
  {
  }

  /** A fault-free append to a freshly loaded store is never refused for staleness: it answers as the
      in-memory store does, extends the log alike, and leaves a cursor that reloading would rebuild. */
  lemma AppendRefinesMemory(s: Scheme, c: Codec, cursor: Cursor, file: Option<string>, call: Call)
    requires LawfulCodec(c) && Fresh(s, c, cursor, file)
    ensures var (r, cursor', file') := FileStep(s, c, cursor, file, false, call, NO_FAULTS);
            && (r, cursor'.log) == MemoryStep(s, cursor.log, call) && Fresh(s, c, cursor', file')
  {
    hide Events, GoodLog, LawfulCodec, Load, FileStep, MemoryStep;
    FreshIsCurrent(s, c, cursor, file);
    CurrentAppends(s, c, cursor, file, call);
  }

  /** The same from any current cursor, which a successful append makes fresh. */
  lemma CurrentAppends(s: Scheme, c: Codec, cursor: Cursor, file: Option<string>, call: Call)
    requires LawfulCodec(c) && Current(s, c, cursor, file)
    ensures var (r, cursor', file') := FileStep(s, c, cursor, file, false, call, NO_FAULTS);
            && (r, cursor'.log) == MemoryStep(s, cursor.log, call) && Current(s, c, cursor', file')
            && (r.Ok? ==> Fresh(s, c, cursor', file')) && (r.Err? ==> (cursor', file') == (cursor, file))
  {
    hide Events, GoodLog, LawfulCodec, Encoded, LastHash, PreserveAll, NextPosition, Version, Repair, Advance, Batch, Chain, AtLineStart, Fresh;
    if Check(Version(cursor.log, call.streamId), call) == None {
      var batch := Batch(s, cursor.log, call.streamId, call.events, call.now);
      CursorBatchIs(s, cursor, call);
      BatchIsGood(s, cursor.log, call.streamId, call.events, call.now);
      AppendedFile(s, c, cursor, file, batch);
      assert Advance(Repair(cursor), batch, |Encoded(c, batch)|).log == cursor.log + batch by { AdvancedLog(cursor, batch, |Encoded(c, batch)|); }
      var (r, cursor', file') := FileStep(s, c, cursor, file, false, call, NO_FAULTS);
      assert Fresh(s, c, cursor', file');
      FreshIsCurrent(s, c, cursor', file');
    }
  }

  lemma AdvancedLog(cursor: Cursor, batch: seq<Stored>, bytes: nat)
    ensures Advance(Repair(cursor), batch, bytes).log == cursor.log + batch
  {
  }

  lemma CursorBatchIs(s: Scheme, cursor: Cursor, call: Call)
    requires cursor.nextPosition == |cursor.log| + 1 && cursor.lastHash == LastHash(cursor.log)
    ensures var batch := CursorBatch(s, cursor, call.streamId, call.events, call.now);
            && batch == Batch(s, cursor.log, call.streamId, call.events, call.now)
            && (forall k :: 0 <= k < |batch| ==> batch[k].hash.Some?)
  {
    hide Chain, Batch, LastHash, Version;
    ChainIsBatch(s, cursor.log, call.streamId, call.events, call.now);
    ChainCarries(s, call.streamId, call.events, call.now, Version(cursor.log, call.streamId) + 1, cursor.nextPosition, cursor.lastHash);
    var batch := CursorBatch(s, cursor, call.streamId, call.events, call.now);
    forall k | 0 <= k < |batch|
      ensures batch[k].hash.Some?
    {
      assert Carries(batch[k], call.streamId, call.events[k]);
    }
  }

  // ---------------------------------------------------------------- runs

  function FileRun(s: Scheme, c: Codec, file: Option<string>, calls: seq<Call>)
    : (r: (seq<Result<AppendResult, StoreError>>, Cursor, Option<string>))
  {
    if calls == [] then ([], Load(c, file), file)
    else
      var (results, cursor, file') := FileRun(s, c, file, calls[..|calls| - 1]);
      var (r, cursor'', file'') := FileStep(s, c, cursor, file', false, calls[|calls| - 1], NO_FAULTS);
      (results + [r], cursor'', file'')
  }

  function MemoryRun(s: Scheme, log: seq<Stored>, calls: seq<Call>): (seq<Result<AppendResult, StoreError>>, seq<Stored>) {
    if calls == [] then ([], log)
    else
      var (results, log') := MemoryRun(s, log, calls[..|calls| - 1]);
      var (r, log'') := MemoryStep(s, log', calls[|calls| - 1]);
      (results + [r], log'')
  }

  /** Over every sequence of appends the file store gives the in-memory store's answers and log, and
      reopening the file at the end rebuilds the live store's log, next position, last hash and size. */
  lemma {:induction false} FileStoreRefinesMemoryStore(s: Scheme, c: Codec, file: Option<string>, calls: seq<Call>)
    requires LawfulCodec(c) && GoodLog(s, Events(c, Text(file)))
    ensures var (results, cursor, file') := FileRun(s, c, file, calls);
            && (results, cursor.log) == MemoryRun(s, Events(c, Text(file)), calls)
            && cursor == Load(c, file') && cursor.log == Events(c, Text(file')) && GoodLog(s, cursor.log)
  {
    hide Events, GoodLog, LawfulCodec, Load, FileStep, MemoryStep;
    LoadGood(s, c, file);
    if calls != [] {
      var n := |calls| - 1;
      FileStoreRefinesMemoryStore(s, c, file, calls[..n]);
      var (results, cursor, file') := FileRun(s, c, file, calls[..n]);
      AppendRefinesMemory(s, c, cursor, file', calls[n]);
      var (r, cursor'', file'') := FileStep(s, c, cursor, file', false, calls[n], NO_FAULTS);
      LoadGood(s, c, file'');
    }
  }

  // ---------------------------------------------------------------- failed writes

  /** The text an append tries to write. */
  function Intended(s: Scheme, c: Codec, cursor: Cursor, call: Call): string {
    (if cursor.needsNewline then "\n" else "") + Encoded(c, CursorBatch(s, cursor, call.streamId, call.events, call.now))
  }

  /** A failed append moves nothing in memory, and the file gains a prefix of what was intended: some first
      records of the batch, perhaps none, become readable. */
  lemma FailedAppendLandsPrefix(s: Scheme, c: Codec, cursor: Cursor, file: Option<string>, call: Call, faults: Faults)
    requires LawfulCodec(c) && Current(s, c, cursor, file)
    requires FileStep(s, c, cursor, file, false, call, faults).0 == Err(WriteFailed)
    ensures var (_, cursor', file') := FileStep(s, c, cursor, file, false, call, faults);
            var batch := CursorBatch(s, cursor, call.streamId, call.events, call.now);
            && cursor'.log == cursor.log && cursor'.nextPosition == cursor.nextPosition && cursor'.lastHash == cursor.lastHash
            && Text(file) <= Text(file') <= Text(file) + Intended(s, c, cursor, call)
            && exists n :: 0 <= n <= |batch| && Events(c, Text(file')) == cursor.log + batch[..n]
  {
    hide Events, GoodLog, LawfulCodec, Encoded, Version, CursorBatch, Check, LastHash, Landed;
    NewlineKeepsEvents(c, Text(file));
    var batch := CursorBatch(s, cursor, call.streamId, call.events, call.now);
    var text := Encoded(c, batch);
    assert cursor.log + batch[..0] == cursor.log;
    if cursor.needsNewline && faults.newline.Some? {
      var reached := Reaching("\n", faults.newline);
      assert reached == "" || reached == "\n";
      assert Text(file) + "" == Text(file);
    } else {
      var base := if cursor.needsNewline then Text(file) + "\n" else Text(file);
      var n := |Reaching(text, faults.batch)|;
      assert Reaching(text, faults.batch) == text[..n];
      EventsAfter(c, base, text[..n]);
      TornBatch(c, batch, n);
    }
  }

  /** If any byte of a failed write stayed beyond what the instance knows of, it is sealed; if none did, it is
      as good as new. */
  lemma FailedAppendSealsOrStaysCurrent(s: Scheme, c: Codec, cursor: Cursor, file: Option<string>, call: Call, faults: Faults)
    requires LawfulCodec(c) && Current(s, c, cursor, file)
    requires FileStep(s, c, cursor, file, false, call, faults).0 == Err(WriteFailed)
    ensures var (_, cursor', file') := FileStep(s, c, cursor, file, false, call, faults);
            && (Sealed(cursor', file') || Current(s, c, cursor', file'))
            && (Sealed(cursor', file') <==> |Text(file')| > match cursor'.knownSize case Some(n) => n case None => 0)
  {
    hide Events, GoodLog, LawfulCodec, Encoded, Version, CursorBatch, LastHash;
    NewlineKeepsEvents(c, Text(file));
    assert Text(file) + "" == Text(file);
    var (_, cursor', file') := FileStep(s, c, cursor, file, false, call, faults);
    if !Sealed(cursor', file') {
      if cursor.needsNewline && faults.newline == None {
        var reached := Reaching(Encoded(c, CursorBatch(s, cursor, call.streamId, call.events, call.now)), faults.batch);
        assert Text(file') == Text(file) + "\n" + reached && |reached| == 0;
        assert Text(file') == Text(file) + "\n";
      } else {
        assert Text(file') == Text(file);
      }
    }
  }

  /** A sealed instance refuses every further append and touches nothing. */
  lemma SealedRefuses(s: Scheme, c: Codec, cursor: Cursor, file: Option<string>, call: Call, faults: Faults)
    requires Sealed(cursor, file)
    ensures var (r, cursor', file') := FileStep(s, c, cursor, file, false, call, faults);
            && r.Err? && r != Err(WriteFailed) && cursor' == cursor && file' == file
            && (call.streamId != "" && call.events != [] ==> r == Err(ConcurrencyConflict))
  {
  }

  /** While another holds the lock, an append that could go through otherwise times out; nothing changes. */
  lemma LockedRefuses(s: Scheme, c: Codec, cursor: Cursor, file: Option<string>, call: Call, faults: Faults)
    ensures var (r, cursor', file') := FileStep(s, c, cursor, file, true, call, faults);
            && r.Err? && cursor' == cursor && file' == file
            && (call.streamId != "" && call.events != [] && call.expected == AnyVersion ==> r == Err(LockTimeout))
  {
  }

  /** Appends with whatever faults, from a freshly loaded store. */
  function FaultyRun(s: Scheme, c: Codec, file: Option<string>, calls: seq<(Call, Faults)>)
    : (r: (seq<Result<AppendResult, StoreError>>, Cursor, Option<string>))
    ensures |r.0| == |calls|
  {
    if calls == [] then ([], Load(c, file), file)
    else
      var (results, cursor, file') := FaultyRun(s, c, file, calls[..|calls| - 1]);
      var (call, faults) := calls[|calls| - 1];
      var (r, cursor'', file'') := FileStep(s, c, cursor, file', false, call, faults);
      (results + [r], cursor'', file'')
  }

  /** The calls that were answered without error. */
  function Kept(results: seq<Result<AppendResult, StoreError>>, calls: seq<(Call, Faults)>): seq<Call>
    requires |results| == |calls|
  {
    if calls == [] then []
    else
      var n := |calls| - 1;
      Kept(results[..n], calls[..n]) + if results[n].Ok? then [calls[n].0] else []
  }

  lemma KeptSnoc(results: seq<Result<AppendResult, StoreError>>, r: Result<AppendResult, StoreError>, calls: seq<(Call, Faults)>)
    requires calls != [] && |results| == |calls| - 1
    ensures Kept(results + [r], calls) == Kept(results, calls[..|calls| - 1]) + if r.Ok? then [calls[|calls| - 1].0] else []
  {
    assert (results + [r])[..|results|] == results;
  }

  lemma MemoryRunSnoc(s: Scheme, log: seq<Stored>, calls: seq<Call>, call: Call)
    ensures MemoryRun(s, log, calls + [call]).1 == MemoryStep(s, MemoryRun(s, log, calls).1, call).1
  {
    hide MemoryStep;
    assert (calls + [call])[..|calls|] == calls;
  }

  /** The live log, whatever happened to the file: a good log at the head of what the file shows, which is all
      of it unless the instance is sealed. */
  ghost predicate LiveOk(s: Scheme, c: Codec, cursor: Cursor, file: Option<string>) {
    && GoodLog(s, Events(c, Text(file))) && cursor.log <= Events(c, Text(file))
    && (Sealed(cursor, file) || Current(s, c, cursor, file))
  }

  lemma FaultyStep(s: Scheme, c: Codec, cursor: Cursor, file: Option<string>, call: Call, faults: Faults)
    requires LawfulCodec(c) && LiveOk(s, c, cursor, file)
    ensures var (r, cursor', file') := FileStep(s, c, cursor, file, false, call, faults);
            && LiveOk(s, c, cursor', file')
            && cursor'.log == (if r.Ok? then MemoryStep(s, cursor.log, call).1 else cursor.log)
            && (r.Ok? ==> r == MemoryStep(s, cursor.log, call).0)
  {
    hide Events, GoodLog, LawfulCodec, FileStep, MemoryStep, Current, Sealed, Load, CursorBatch;
    var (r, cursor', file') := FileStep(s, c, cursor, file, false, call, faults);
    if Sealed(cursor, file) {
      SealedRefuses(s, c, cursor, file, call, faults);
    } else if r == Err(WriteFailed) {
      FailedAppendSealsOrStaysCurrent(s, c, cursor, file, call, faults);
      FailedAppendLandsPrefix(s, c, cursor, file, call, faults);
      FailedLogIsGood(s, c, cursor, file, call, file');
    } else {
      NoFaultHit(s, c, cursor, file, call, faults);
      CurrentAppends(s, c, cursor, file, call);
      CurrentLog(s, c, cursor', file');
    }
  }

  lemma CurrentLog(s: Scheme, c: Codec, cursor: Cursor, file: Option<string>)
    requires Current(s, c, cursor, file)
    ensures cursor.log == Events(c, Text(file)) && GoodLog(s, cursor.log)
  {
  }

  lemma NoFaultHit(s: Scheme, c: Codec, cursor: Cursor, file: Option<string>, call: Call, faults: Faults)
    requires !Sealed(cursor, file) && FileStep(s, c, cursor, file, false, call, faults).0 != Err(WriteFailed)
    ensures FileStep(s, c, cursor, file, false, call, faults) == FileStep(s, c, cursor, file, false, call, NO_FAULTS)
  {
    hide Version, CursorBatch, Encoded, Repair, Advance;
  }

  lemma FailedLogIsGood(s: Scheme, c: Codec, cursor: Cursor, file: Option<string>, call: Call, file': Option<string>)
    requires Current(s, c, cursor, file)
    requires var batch := CursorBatch(s, cursor, call.streamId, call.events, call.now);
             exists n :: 0 <= n <= |batch| && Events(c, Text(file')) == cursor.log + batch[..n]
    ensures GoodLog(s, Events(c, Text(file'))) && cursor.log <= Events(c, Text(file'))
  {
    hide Events, GoodLog, CursorBatch, Batch, LastHash;
    var batch := CursorBatch(s, cursor, call.streamId, call.events, call.now);
    var n :| 0 <= n <= |batch| && Events(c, Text(file')) == cursor.log + batch[..n];
    CursorBatchIs(s, cursor, call);
    BatchIsGood(s, cursor.log, call.streamId, call.events, call.now);
    GoodLogPrefix(s, cursor.log + batch, |cursor.log| + n);
    assert (cursor.log + batch)[..|cursor.log| + n] == cursor.log + batch[..n];
  }

  /** Over every sequence of appends with whatever write failures: the live log is what the in-memory store
      holds after just the appends that were answered without error; it heads what the file shows, which is a
      good log; and the instance either refuses everything from then on or goes on like a fresh one. */
  lemma {:induction false} FaultyRunIsMemoryRun(s: Scheme, c: Codec, file: Option<string>, calls: seq<(Call, Faults)>)
    requires LawfulCodec(c) && GoodLog(s, Events(c, Text(file)))
    ensures var (results, cursor, file') := FaultyRun(s, c, file, calls);
            && cursor.log == MemoryRun(s, Events(c, Text(file)), Kept(results, calls)).1
            && LiveOk(s, c, cursor, file')
  {
    hide Events, GoodLog, LawfulCodec, Load, FileStep, MemoryStep, Current, Sealed, LiveOk;
    if calls == [] {
      FreshIsCurrent(s, c, Load(c, file), file);
      CurrentIsLive(s, c, Load(c, file), file);
    } else {
      var n := |calls| - 1;
      FaultyRunIsMemoryRun(s, c, file, calls[..n]);
      var (results, cursor, file') := FaultyRun(s, c, file, calls[..n]);
      var (call, faults) := calls[n];
      FaultyStep(s, c, cursor, file', call, faults);
      KeptSnoc(results, FileStep(s, c, cursor, file', false, call, faults).0, calls);
      var kept := Kept(results, calls[..n]);
      MemoryRunSnoc(s, Events(c, Text(file)), kept, call);
      assert kept + [] == kept;
    }
  }

  lemma CurrentIsLive(s: Scheme, c: Codec, cursor: Cursor, file: Option<string>)
    requires Current(s, c, cursor, file)
    ensures LiveOk(s, c, cursor, file) && cursor.log == Events(c, Text(file))
  {
  }

  // ---------------------------------------------------------------- reads

  /** In a good log the versions of each stream are 1, 2, 3, ... and the positions of the log too. */
  lemma {:induction false} StreamVersions(s: Scheme, log: seq<Stored>, streamId: string, k: nat)
    requires GoodLog(s, log) && k < |Select(log, StreamOf, streamId)|
    ensures ByVersion(Select(log, StreamOf, streamId)[k]) == k + 1
  {
    hide Continues;
    var n := |log| - 1;
    var init := Select(log[..n], StreamOf, streamId);
    GoodLogPrefix(s, log, n);
    if k < |init| {
      StreamVersions(s, log[..n], streamId, k);
    } else {
      VersionCounts(log[..n], streamId);
      assert GoodNext(s, log[..n], log[n]);
    }
  }

  lemma LogPositions(s: Scheme, log: seq<Stored>, k: nat)
    requires GoodLog(s, log) && k < |log|
    ensures ByPosition(log[k]) == k + 1
  {
    hide Continues;
    assert GoodNext(s, log[..k], log[k]);
  }

  ghost predicate Numbered(xs: seq<Stored>, key: Stored -> int) {
    forall k :: 0 <= k < |xs| ==> key(xs[k]) == k + 1
  }

  function Clamp(n: int, size: nat): nat {
    if n < 0 then 0 else if n > size then size else n
  }

  lemma {:induction false} FilterUp(xs: seq<Stored>, key: Stored -> int, from: int, keep: Stored -> bool)
    requires Numbered(xs, key) && forall e :: keep(e) <==> key(e) >= from
    ensures Filter(xs, keep) == xs[Clamp(from - 1, |xs|)..]
  {
    if xs != [] {
      var n := |xs| - 1;
      FilterUp(xs[..n], key, from, keep);
      assert key(xs[n]) == n + 1;
      if from <= n + 1 {
        assert xs[Clamp(from - 1, |xs|)..] == xs[..n][Clamp(from - 1, n)..] + [xs[n]];
      }
    }
  }

  lemma {:induction false} FilterDown(xs: seq<Stored>, key: Stored -> int, from: int, keep: Stored -> bool)
    requires Numbered(xs, key) && forall e :: keep(e) <==> key(e) <= from
    ensures Filter(xs, keep) == xs[..Clamp(from, |xs|)]
  {
    if xs != [] {
      var n := |xs| - 1;
      FilterDown(xs[..n], key, from, keep);
      assert key(xs[n]) == n + 1;
      if from > n {
        assert xs[..Clamp(from, |xs|)] == xs[..n][..Clamp(from, n)] + [xs[n]];
      } else {
        assert xs[..Clamp(from, |xs|)] == xs[..n][..Clamp(from, n)];
      }
    }
  }

  /** On a good log a forward read is exactly the tail from the requested number and a backward read the
      reversed head up to it, cut to the requested count. */
  lemma PageIsExact(xs: seq<Stored>, key: Stored -> int, o: ReadOptions)
    requires Numbered(xs, key)
    ensures var from := if o.from.Some? then o.from.value else 1;
            Page(xs, key, o) == Limit(if o.direction == Forward then xs[Clamp(from - 1, |xs|)..] else Reverse(xs[..Clamp(from, |xs|)]), o.maxCount)
  {
    hide Filter, Limit, Reverse, Numbered;
    var from := if o.from.Some? then o.from.value else 1;
    FilterUp(xs, key, from, e => key(e) >= from);
    FilterDown(xs, key, from, e => key(e) <= from);
  }

  lemma StreamReadIsExact(s: Scheme, log: seq<Stored>, streamId: string, o: ReadOptions)
    requires GoodLog(s, log) && streamId != "" && (o.from.Some? ==> o.from.value >= 1)
    ensures var from := if o.from.Some? then o.from.value else 1;
            var stream := Select(log, StreamOf, streamId);
            ReadLog(log, streamId, o)
            == Ok(Limit(if o.direction == Forward then stream[Clamp(from - 1, |stream|)..]
                        else Reverse(stream[..Clamp(from, |stream|)]), o.maxCount))
  {
    hide GoodLog, Page;
    var stream := Select(log, StreamOf, streamId);
    forall k | 0 <= k < |stream|
      ensures ByVersion(stream[k]) == k + 1
    {
      StreamVersions(s, log, streamId, k);
    }
    PageIsExact(stream, ByVersion, o);
  }

  /** readAll takes any position, below 1 too. */
  lemma ReadAllIsExact(s: Scheme, log: seq<Stored>, o: ReadOptions)
    requires GoodLog(s, log)
    ensures var from := if o.from.Some? then o.from.value else 1;
            Page(log, ByPosition, o)
            == Limit(if o.direction == Forward then log[Clamp(from - 1, |log|)..] else Reverse(log[..Clamp(from, |log|)]), o.maxCount)
  {
    hide GoodLog, Page;
    forall k | 0 <= k < |log|
      ensures ByPosition(log[k]) == k + 1
    {
      LogPositions(s, log, k);
    }
    PageIsExact(log, ByPosition, o);
  }

  /** How many of n records are returned. */
  function Returned(n: int, maxCount: Option<int>): nat {
    if n <= 0 then 0 else if maxCount.Some? && 0 <= maxCount.value < n then maxCount.value else n
  }

  /** The records of a page, one by one: upward from the requested number, or downward from it. */
  ghost predicate PageOf(page: seq<Stored>, xs: seq<Stored>, o: ReadOptions) {
    var from := if o.from.Some? then o.from.value else 1;
    if o.direction == Forward then
      var start := if from < 1 then 1 else from;
      |page| == Returned(|xs| - start + 1, o.maxCount) && forall i :: 0 <= i < |page| ==> page[i] == xs[start - 1 + i]
    else
      var end := if from > |xs| then |xs| else from;
      |page| == Returned(end, o.maxCount) && forall i :: 0 <= i < |page| ==> page[i] == xs[end - 1 - i]
  }

  lemma LimitIs(xs: seq<Stored>, maxCount: Option<int>)
    ensures |Limit(xs, maxCount)| == Returned(|xs|, maxCount) && forall i :: 0 <= i < |Limit(xs, maxCount)| ==> Limit(xs, maxCount)[i] == xs[i]
  {
  }

  lemma UpwardPage(xs: seq<Stored>, from: int, maxCount: Option<int>)
    ensures var page, start := Limit(xs[Clamp(from - 1, |xs|)..], maxCount), if from < 1 then 1 else from;
            |page| == Returned(|xs| - start + 1, maxCount) && forall i :: 0 <= i < |page| ==> page[i] == xs[start - 1 + i]
  {
    hide Limit;
    var k := Clamp(from - 1, |xs|);
    var page, start := Limit(xs[k..], maxCount), if from < 1 then 1 else from;
    LimitIs(xs[k..], maxCount);
    assert |page| > 0 ==> k == start - 1;
    forall i | 0 <= i < |page|
      ensures page[i] == xs[start - 1 + i]
    {
      assert page[i] == xs[k..][i] == xs[k + i];
    }
  }

  lemma DownwardPage(xs: seq<Stored>, from: int, maxCount: Option<int>)
    ensures var page, end := Limit(Reverse(xs[..Clamp(from, |xs|)]), maxCount), if from > |xs| then |xs| else from;
            |page| == Returned(end, maxCount) && forall i :: 0 <= i < |page| ==> page[i] == xs[end - 1 - i]
  {
    hide Limit;
    var k := Clamp(from, |xs|);
    var page, end := Limit(Reverse(xs[..k]), maxCount), if from > |xs| then |xs| else from;
    LimitIs(Reverse(xs[..k]), maxCount);
    assert |page| > 0 ==> k == end;
    forall i | 0 <= i < |page|
      ensures page[i] == xs[end - 1 - i]
    {
      assert page[i] == Reverse(xs[..k])[i] == xs[..k][k - 1 - i];
    }
  }

  lemma ExactPage(xs: seq<Stored>, o: ReadOptions)
    ensures var from := if o.from.Some? then o.from.value else 1;
            PageOf(Limit(if o.direction == Forward then xs[Clamp(from - 1, |xs|)..] else Reverse(xs[..Clamp(from, |xs|)]), o.maxCount), xs, o)
  {
    hide Limit, Reverse, Clamp, Returned;
    var from := if o.from.Some? then o.from.value else 1;
    if o.direction == Forward { UpwardPage(xs, from, o.maxCount); } else { DownwardPage(xs, from, o.maxCount); }
  }

  lemma NothingToRead(o: ReadOptions)
    ensures PageOf([], [], o)
  {
  }

  /** Reading a stream, record by record, and exactly when it is refused. */
  lemma StreamReadAt(s: Scheme, log: seq<Stored>, streamId: string, o: ReadOptions)
    requires GoodLog(s, log)
    ensures var r, stream := ReadLog(log, streamId, o), Select(log, StreamOf, streamId);
            && (r == Err(InvalidStreamId) <==> streamId == "")
            && (r == Err(InvalidVersion) <==> streamId != "" && stream != [] && o.from.Some? && o.from.value < 1)
            && (r.Err? ==> r.error in {InvalidStreamId, InvalidVersion})
            && (r.Ok? ==> PageOf(r.value, stream, o))
  {
    hide GoodLog, Page, Limit, Reverse, PageOf;
    var stream := Select(log, StreamOf, streamId);
    ExactPage(stream, o);
    if streamId != "" && (o.from.Some? ==> o.from.value >= 1) {
      StreamReadIsExact(s, log, streamId, o);
    }
    if stream == [] {
      NothingToRead(o);
    }
  }

  /** The same for the global log. */
  lemma ReadAllAt(s: Scheme, log: seq<Stored>, o: ReadOptions)
    requires GoodLog(s, log)
    ensures PageOf(Page(log, ByPosition, o), log, o)
  {
    hide GoodLog, Page, Limit, Reverse, PageOf;
    ReadAllIsExact(s, log, o);
    ExactPage(log, o);
  }
}
