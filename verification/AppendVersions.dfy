/** Optimistic concurrency of append: what an expected version promises, what the answer says of the records that
    were added, and that of two writers expecting the same version only one succeeds
    (packages/event-store/src/jsonl-store.ts, packages/event-store/src/in-memory-store.ts). */
module AppendVersions {
  import opened Wrappers
  import opened Grouping
  import opened HashChain
  import opened EventLog
  import opened EventStores
  import opened StoreRuns

  /** The stream is as the caller expects it: of any length, empty, or of the given length. */
  ghost predicate AsExpected(log: seq<Stored>, call: Call) {
    && (call.expected == NoStream ==> Select(log, StreamOf, call.streamId) == [])
    && (call.expected.AtVersion? ==> |Select(log, StreamOf, call.streamId)| == call.expected.version)
  }

  /** The records an append has added, and what its answer says of them. */
  ghost predicate Describes(r: AppendResult, added: seq<Stored>, call: Call) {
    && added != [] && |added| == |call.events| == r.count && r.streamId == call.streamId
    && (forall k :: 0 <= k < |added| ==> Carries(added[k], call.streamId, call.events[k]))
    && (forall k :: 0 <= k < |added| ==> added[k].content.version == r.fromVersion + k)
    && r.toVersion == added[|added| - 1].content.version
  }

  /** What an append answers and does, in terms of the streams alone. */
  ghost predicate Answered(log: seq<Stored>, call: Call, r: Result<AppendResult, StoreError>, log': seq<Stored>) {
    var id := call.streamId;
    && (r == Err(InvalidStreamId) <==> id == "")
    && (r == Err(EmptyAppend) <==> id != "" && call.events == [])
    && (r == Err(ConcurrencyConflict) <==> id != "" && call.events != [] && !AsExpected(log, call))
    && (r.Ok? <==> id != "" && call.events != [] && AsExpected(log, call))
    && (r.Err? ==> log' == log)
    && (r.Ok? ==> log <= log' && Describes(r.value, log'[|log|..], call)
                  && r.value.fromVersion == |Select(log, StreamOf, id)| + 1
                  && Select(log', StreamOf, id) == Select(log, StreamOf, id) + log'[|log|..])
    && forall j :: j != id ==> Select(log', StreamOf, j) == Select(log, StreamOf, j)
  }

  lemma SelectMore(log: seq<Stored>, more: seq<Stored>, id: string)
    requires forall k :: 0 <= k < |more| ==> StreamOf(more[k]) == id
    ensures Select(log + more, StreamOf, id) == Select(log, StreamOf, id) + more
    ensures forall j :: j != id ==> Select(log + more, StreamOf, j) == Select(log, StreamOf, j)
  {
    hide Select;
    forall j
      ensures Select(log + more, StreamOf, j) == Select(log, StreamOf, j) + if j == id then more else []
    {
      SelectConcat(log, more, StreamOf, j);
      SelectBlock(more, StreamOf, id, j);
    }
  }

  /** The in-memory store. */
  lemma AppendAnswers(s: Scheme, log: seq<Stored>, call: Call)
    requires GoodLog(s, log)
    ensures var (r, log') := MemoryStep(s, log, call); Answered(log, call, r, log')
  {
    hide GoodLog, Version, Batch, Select, Describes;
    VersionCounts(log, call.streamId);
    BatchDescribed(s, log, call);
    var batch := Batch(s, log, call.streamId, call.events, call.now);
    assert (log + batch)[|log|..] == batch;
  }

  /** The batch continues its stream and is what the answer says. */
  lemma BatchDescribed(s: Scheme, log: seq<Stored>, call: Call)
    requires GoodLog(s, log)
    ensures var id, batch := call.streamId, Batch(s, log, call.streamId, call.events, call.now);
            && (call.events != [] ==> Describes(Acknowledged(Version(log, id), call), batch, call))
            && Select(log + batch, StreamOf, id) == Select(log, StreamOf, id) + batch
            && forall j :: j != id ==> Select(log + batch, StreamOf, j) == Select(log, StreamOf, j)
  {
    hide GoodLog, Version, Select, LastHash, Chain, Batch, Carries;
    var id, batch := call.streamId, Batch(s, log, call.streamId, call.events, call.now);
    ChainIsBatch(s, log, id, call.events, call.now);
    ChainCarries(s, id, call.events, call.now, Version(log, id) + 1, |log| + 1, LastHash(log));
    CarriesStream(batch, id, call.events);
    SelectMore(log, batch, id);
    BatchIsGood(s, log, id, call.events, call.now);
    VersionCounts(log, id);
    forall k | 0 <= k < |batch|
      ensures batch[k].content.version == Version(log, id) + 1 + k
    {
      StreamVersions(s, log + batch, id, |Select(log, StreamOf, id)| + k);
    }
  }

  lemma CarriesStream(batch: seq<Stored>, id: string, events: seq<DomainEvent>)
    requires AllCarried(batch, id, events)
    ensures forall k :: 0 <= k < |batch| ==> StreamOf(batch[k]) == id && Carries(batch[k], id, events[k])
  {
  }

  // ---------------------------------------------------------------- runs

  lemma {:induction false} MemoryRunAt(s: Scheme, log: seq<Stored>, calls: seq<Call>, k: nat)
    requires k < |calls|
    ensures |MemoryRun(s, log, calls).0| == |calls|
    ensures var before := MemoryRun(s, log, calls[..k]).1;
            MemoryStep(s, before, calls[k]) == (MemoryRun(s, log, calls).0[k], MemoryRun(s, log, calls[..k + 1]).1)
  {
    hide MemoryStep;
    AnswersCount(s, log, calls);
    AnswersCount(s, log, calls[..|calls| - 1]);
    if k < |calls| - 1 {
      MemoryRunAt(s, log, calls[..|calls| - 1], k);
      assert calls[..|calls| - 1][..k] == calls[..k] && calls[..|calls| - 1][..k + 1] == calls[..k + 1];
    } else {
      assert calls[..k + 1] == calls;
    }
  }

  lemma {:induction false} AnswersCount(s: Scheme, log: seq<Stored>, calls: seq<Call>)
    ensures |MemoryRun(s, log, calls).0| == |calls|
  {
    hide MemoryStep;
    if calls != [] {
      AnswersCount(s, log, calls[..|calls| - 1]);
    }
  }

  lemma {:induction false} MemoryRunGood(s: Scheme, log: seq<Stored>, calls: seq<Call>)
    requires GoodLog(s, log)
    ensures GoodLog(s, MemoryRun(s, log, calls).1)
  {
    hide GoodLog, Check, Batch;
    if calls != [] {
      var n := |calls| - 1;
      MemoryRunGood(s, log, calls[..n]);
      BatchIsGood(s, MemoryRun(s, log, calls[..n]).1, calls[n].streamId, calls[n].events, calls[n].now);
    }
  }

  /** Every append of every run of the file store is answered so, the live log being what reopening shows. */
  lemma EveryAppendAnswers(s: Scheme, c: Codec, file: Option<string>, calls: seq<Call>, k: nat)
    requires LawfulCodec(c) && GoodLog(s, Events(c, Text(file))) && k < |calls|
    ensures |FileRun(s, c, file, calls).0| == |calls|
    ensures var before, after := FileRun(s, c, file, calls[..k]), FileRun(s, c, file, calls[..k + 1]);
            && Answered(before.1.log, calls[k], FileRun(s, c, file, calls).0[k], after.1.log)
            && before.1.log == Events(c, Text(before.2)) && after.1.log == Events(c, Text(after.2))
  {
    hide GoodLog, LawfulCodec, Events, FileRun, MemoryRun, Answered;
    var log := Events(c, Text(file));
    FileStoreRefinesMemoryStore(s, c, file, calls);
    FileStoreRefinesMemoryStore(s, c, file, calls[..k]);
    FileStoreRefinesMemoryStore(s, c, file, calls[..k + 1]);
    MemoryRunAt(s, log, calls, k);
    MemoryRunGood(s, log, calls[..k]);
    AppendAnswers(s, MemoryRun(s, log, calls[..k]).1, calls[k]);
  }

  lemma StreamGrows(log: seq<Stored>, call: Call, r: Result<AppendResult, StoreError>, log': seq<Stored>, id: string)
    requires Answered(log, call, r, log')
    ensures |Select(log, StreamOf, id)| <= |Select(log', StreamOf, id)|
    ensures r.Ok? && call.streamId == id ==> |Select(log, StreamOf, id)| < |Select(log', StreamOf, id)|
  {
    hide Select, Carries;
  }

  lemma {:induction false} StreamNeverShrinks(s: Scheme, log: seq<Stored>, calls: seq<Call>, j: nat, k: nat, id: string)
    requires GoodLog(s, log) && j <= k <= |calls|
    ensures |Select(MemoryRun(s, log, calls[..j]).1, StreamOf, id)| <= |Select(MemoryRun(s, log, calls[..k]).1, StreamOf, id)|
  {
    hide GoodLog, Select, MemoryStep, MemoryRun, Answered;
    if j < k {
      StreamNeverShrinks(s, log, calls, j, k - 1, id);
      MemoryRunAt(s, log, calls, k - 1);
      MemoryRunGood(s, log, calls[..k - 1]);
      var before := MemoryRun(s, log, calls[..k - 1]).1;
      AppendAnswers(s, before, calls[k - 1]);
      var (r, after) := MemoryStep(s, before, calls[k - 1]);
      StreamGrows(before, calls[k - 1], r, after, id);
    }
  }

  /** Of all appends of a run that expect the same version of the same stream at most one succeeds: no update
      is lost. */
  lemma OneWinner(s: Scheme, log: seq<Stored>, calls: seq<Call>, j: nat, k: nat)
    requires GoodLog(s, log) && j < k < |calls|
    requires calls[j].streamId == calls[k].streamId && calls[j].expected == calls[k].expected != AnyVersion
    ensures |MemoryRun(s, log, calls).0| == |calls|
    ensures MemoryRun(s, log, calls).0[j].Err? || MemoryRun(s, log, calls).0[k].Err?
  {
    hide GoodLog, Select, MemoryStep, MemoryRun, Describes;
    var id := calls[j].streamId;
    MemoryRunAt(s, log, calls, j);
    MemoryRunAt(s, log, calls, k);
    MemoryRunGood(s, log, calls[..j]);
    MemoryRunGood(s, log, calls[..k]);
    var first, second := MemoryRun(s, log, calls[..j]).1, MemoryRun(s, log, calls[..k]).1;
    AppendAnswers(s, first, calls[j]);
    AppendAnswers(s, second, calls[k]);
    var (r, after) := MemoryStep(s, first, calls[j]);
    if r.Ok? {
      StreamGrows(first, calls[j], r, after, id);
      StreamNeverShrinks(s, log, calls, j + 1, k, id);
    }
  }

  /** The same for the file store. */
  lemma OneWinnerOnFile(s: Scheme, c: Codec, file: Option<string>, calls: seq<Call>, j: nat, k: nat)
    requires LawfulCodec(c) && GoodLog(s, Events(c, Text(file))) && j < k < |calls|
    requires calls[j].streamId == calls[k].streamId && calls[j].expected == calls[k].expected != AnyVersion
    ensures |FileRun(s, c, file, calls).0| == |calls|
    ensures FileRun(s, c, file, calls).0[j].Err? || FileRun(s, c, file, calls).0[k].Err?
  {
    hide GoodLog, LawfulCodec, Events, FileRun, MemoryRun;
    FileStoreRefinesMemoryStore(s, c, file, calls);
    OneWinner(s, Events(c, Text(file)), calls, j, k);
  }
}
