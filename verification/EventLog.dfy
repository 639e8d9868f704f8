/** Logs as the stores build them, and the JSONL text that carries them: batches of chained events,
    lines, torn tails and loading (packages/event-store/src/jsonl-store.ts). One character of the file
    stands for one byte. */
module EventLog {
  import opened Wrappers
  import opened HashChain

  datatype DomainEvent = DomainEvent(eventType: string, metadata: string, payload: string)

  // ---------------------------------------------------------------- logs

  /** How many events of a log belong to a stream: the stream's version. */
  function Version(log: seq<Stored>, streamId: string): nat {
    if log == [] then 0
    else Version(log[..|log| - 1], streamId) + (if log[|log| - 1].content.streamId == streamId then 1 else 0)
  }

  /** The hash a new event links to: the last one seen, or genesis. */
  function LastHash(log: seq<Stored>): string {
    if log == [] then GENESIS_HASH
    else if log[|log| - 1].hash.Some? then log[|log| - 1].hash.value
    else LastHash(log[..|log| - 1])
  }

  /** Hash fields come together: the loader drops a lone one. */
  predicate Whole(e: Stored) {
    e.hash.Some? <==> e.previousHash.Some?
  }

  ghost predicate GoodNext(s: Scheme, before: seq<Stored>, e: Stored) {
    && Continues(s, before, e) && Whole(e)
    && e.content.globalPosition == |before| + 1
    && e.content.version == Version(before, e.content.streamId) + 1
  }

  /** An unforked, gap-free log: accepted by the verifier, positions 1..n, and in each stream versions
      1, 2, 3, ... */
  ghost predicate GoodLog(s: Scheme, log: seq<Stored>) {
    forall i :: 0 <= i < |log| ==> GoodNext(s, log[..i], log[i])
  }

  lemma GoodLogPrefix(s: Scheme, log: seq<Stored>, n: nat)
    requires n <= |log| && GoodLog(s, log)
    ensures GoodLog(s, log[..n])
  {
    hide GoodNext;
    assert forall i :: 0 <= i < n ==> log[..n][..i] == log[..i];
  }

  lemma GoodLogSnoc(s: Scheme, log: seq<Stored>, e: Stored)
    requires GoodLog(s, log) && GoodNext(s, log, e)
    ensures GoodLog(s, log + [e])
  {
    hide GoodNext;
    var log' := log + [e];
    forall i | 0 <= i < |log'|
      ensures GoodNext(s, log'[..i], log'[i])
    {
      assert i < |log| ==> log'[..i] == log[..i];
      assert i == |log| ==> log'[..i] == log;
    }
  }

  lemma GoodLogVerified(s: Scheme, log: seq<Stored>)
    requires GoodLog(s, log)
    ensures Verified(s, log)
  {
    hide Continues;
  }

  lemma {:induction false} WholeLastHash(s: Scheme, log: seq<Stored>)
    requires GoodLog(s, log)
    ensures LastHash(log) == LinkAfter(log)
  {
    hide Continues;
    if log != [] {
      assert Whole(log[|log| - 1]) by { assert GoodNext(s, log[..|log| - 1], log[|log| - 1]); }
      GoodLogPrefix(s, log, |log| - 1);
      WholeLastHash(s, log[..|log| - 1]);
    }
  }

  // ---------------------------------------------------------------- batches

  /** The next stored event: chained, numbered and versioned after a log. */
  function NextStored(s: Scheme, log: seq<Stored>, streamId: string, event: DomainEvent, now: string): Stored {
    var content := Content(event.eventType, event.metadata, event.payload, streamId,
                           Version(log, streamId) + 1, |log| + 1, now);
    Stored(content, Some(ComputeEventHash(s, content, LastHash(log))), Some(LastHash(log)))
  }

  /** The stored events of one append on top of a log. */
  function Batch(s: Scheme, log: seq<Stored>, streamId: string, events: seq<DomainEvent>, now: string): (batch: seq<Stored>)
    ensures |batch| == |events|
  {
    if events == [] then []
    else
      var init := Batch(s, log, streamId, events[..|events| - 1], now);
      init + [NextStored(s, log + init, streamId, events[|events| - 1], now)]
  }

  lemma NextStoredIsGood(s: Scheme, log: seq<Stored>, streamId: string, event: DomainEvent, now: string)
    requires GoodLog(s, log)
    ensures GoodLog(s, log + [NextStored(s, log, streamId, event, now)])
  {
    hide ComputeEventHash, GoodLog;
    var e := NextStored(s, log, streamId, event, now);
    WholeLastHash(s, log);
    LastPosition(s, log);
    assert GoodNext(s, log, e);
    GoodLogSnoc(s, log, e);
  }

  lemma LastPosition(s: Scheme, log: seq<Stored>)
    requires GoodLog(s, log)
    ensures log != [] ==> log[|log| - 1].content.globalPosition == |log|
  {
    hide Continues;
    if log != [] {
      assert GoodNext(s, log[..|log| - 1], log[|log| - 1]);
    }
  }

  /** Appending to a good log gives a good log. */
  lemma {:induction false} BatchIsGood(s: Scheme, log: seq<Stored>, streamId: string, events: seq<DomainEvent>, now: string)
    requires GoodLog(s, log)
    ensures GoodLog(s, log + Batch(s, log, streamId, events, now))
  {
    hide GoodLog, NextStored;
    if events == [] {
      assert log + [] == log;
    } else {
      var init := Batch(s, log, streamId, events[..|events| - 1], now);
      BatchIsGood(s, log, streamId, events[..|events| - 1], now);
      NextStoredIsGood(s, log + init, streamId, events[|events| - 1], now);
      var e := NextStored(s, log + init, streamId, events[|events| - 1], now);
      assert log + (init + [e]) == (log + init) + [e];
    }
  }

  // ---------------------------------------------------------------- the append loop's records

  /** What append's loop builds from local cursors: version, position and link advance with each event. */
  function Chain(s: Scheme, streamId: string, events: seq<DomainEvent>, now: string, version: int, position: int, link: string): (r: seq<Stored>)
    ensures |r| == |events|
    decreases |events|
  {
    if events == [] then []
    else
      var content := Content(events[0].eventType, events[0].metadata, events[0].payload, streamId, version, position, now);
      var hash := ComputeEventHash(s, content, link);
      [Stored(content, Some(hash), Some(link))] + Chain(s, streamId, events[1..], now, version + 1, position + 1, hash)
  }

  lemma {:induction false} BatchCons(s: Scheme, log: seq<Stored>, streamId: string, events: seq<DomainEvent>, now: string)
    requires events != []
    ensures var first := NextStored(s, log, streamId, events[0], now);
            Batch(s, log, streamId, events, now) == [first] + Batch(s, log + [first], streamId, events[1..], now)
  {
    hide NextStored;
    var n := |events| - 1;
    var first := NextStored(s, log, streamId, events[0], now);
    if n == 0 {
      assert log + [] == log && Batch(s, log, streamId, events[..0], now) == [];
    } else {
      BatchCons(s, log, streamId, events[..n], now);
      assert events[..n][1..] == events[1..][..n - 1];
      var rest := Batch(s, log + [first], streamId, events[1..][..n - 1], now);
      assert log + ([first] + rest) == log + [first] + rest;
    }
  }

  /** The cursors carry all that is needed of the log: the loop builds the batch that continues it. */
  lemma {:induction false} ChainIsBatch(s: Scheme, log: seq<Stored>, streamId: string, events: seq<DomainEvent>, now: string)
    ensures Chain(s, streamId, events, now, Version(log, streamId) + 1, |log| + 1, LastHash(log)) == Batch(s, log, streamId, events, now)
    decreases |events|
  {
    hide ComputeEventHash;
    if events != [] {
      var first := NextStored(s, log, streamId, events[0], now);
      assert (log + [first])[..|log|] == log;
      BatchCons(s, log, streamId, events, now);
      ChainIsBatch(s, log + [first], streamId, events[1..], now);
    }
  }

  /** A hashed record that carries a caller's event. */
  predicate Carries(r: Stored, streamId: string, event: DomainEvent) {
    && r.Hashed() && r.content.streamId == streamId && r.content.eventType == event.eventType
    && r.content.metadata == event.metadata && r.content.payload == event.payload
  }

  ghost predicate AllCarried(batch: seq<Stored>, streamId: string, events: seq<DomainEvent>) {
    |batch| == |events| && forall i :: 0 <= i < |batch| ==> Carries(batch[i], streamId, events[i])
  }

  lemma {:induction false} ChainCarries(s: Scheme, streamId: string, events: seq<DomainEvent>, now: string, version: int, position: int, link: string)
    ensures AllCarried(Chain(s, streamId, events, now, version, position, link), streamId, events)
    decreases |events|
  {
    hide ComputeEventHash;
    if events != [] {
      var all := Chain(s, streamId, events, now, version, position, link);
      ChainCarries(s, streamId, events[1..], now, version + 1, position + 1, all[0].hash.value);
      forall i | 0 <= i < |all|
        ensures Carries(all[i], streamId, events[i])
      {
        assert i > 0 ==> all[i] == all[1..][i - 1] && events[i] == events[1..][i - 1];
      }
    }
  }

  // ---------------------------------------------------------------- lines

  /** content.split("\n"). */
  function Lines(content: string): (lines: seq<string>)
    ensures lines != []
  {
    if content == [] then [[]]
    else
      var rest := Lines(content[1..]);
      if content[0] == '\n' then [[]] + rest else [[content[0]] + rest[0]] + rest[1..]
  }

  lemma {:induction false} LinesConcat(a: string, b: string)
    ensures Lines(a + ("\n" + b)) == Lines(a) + Lines(b)
  {
    if a == [] {
      assert a + ("\n" + b) == "\n" + b && ("\n" + b)[1..] == b;
    } else {
      var c := a + ("\n" + b);
      assert c[0] == a[0] && c[1..] == a[1..] + ("\n" + b);
      LinesConcat(a[1..], b);
    }
  }

  lemma {:induction false} OneLine(a: string)
    requires '\n' !in a
    ensures Lines(a) == [a]
  {
    if a != [] {
      OneLine(a[1..]);
      assert a == [a[0]] + a[1..];
    }
  }

  // ---------------------------------------------------------------- the codec

  /** JSON.stringify of a stored event, and what _loadFromFile makes of one trimmed line: a record, or
      None when the text is blank, does not parse or misses a field. */
  datatype Codec = Codec(encode: Stored -> string, decode: string -> Option<Stored>)

  /** A record is one line, reads back, and no torn prefix of it reads as a record. */
  ghost predicate LawfulCodec(c: Codec) {
    && c.decode("") == None
    && (forall r :: '\n' !in c.encode(r) && c.decode(c.encode(r)) == Some(r))
    && (forall r, n :: 0 <= n < |c.encode(r)| ==> c.decode(c.encode(r)[..n]) == None)
  }

  /** Hash fields are preserved only when both are present. */
  function Preserve(record: Stored): Stored {
    if record.hash.Some? && record.previousHash.Some? then record else Stored(record.content, None, None)
  }

  /** The records on a list of lines; the others are skipped. */
  function Records(c: Codec, lines: seq<string>): seq<Stored> {
    if lines == [] then []
    else
      var init := Records(c, lines[..|lines| - 1]);
      match c.decode(lines[|lines| - 1]) case Some(r) => init + [r] case None => init
  }

  lemma RecordsOfOne(c: Codec, line: string)
    ensures Records(c, [line]) == match c.decode(line) case Some(r) => [r] case None => []
  {
    assert [line][..0] == [];
    assert Records(c, []) == [];
  }

  function Events(c: Codec, content: string): seq<Stored> {
    Records(c, Lines(content))
  }

  lemma {:induction false} RecordsConcat(c: Codec, a: seq<string>, b: seq<string>)
    ensures Records(c, a + b) == Records(c, a) + Records(c, b)
  {
    if b == [] {
      assert a + b == a;
    } else {
      assert (a + b)[..|a + b| - 1] == a + b[..|b| - 1];
      RecordsConcat(c, a, b[..|b| - 1]);
    }
  }

  lemma EventsConcat(c: Codec, a: string, b: string)
    ensures Events(c, a + ("\n" + b)) == Events(c, a) + Events(c, b)
  {
    LinesConcat(a, b);
    RecordsConcat(c, Lines(a), Lines(b));
  }

  /** A file to which new lines can be added: empty, or ending in a newline. */
  predicate AtLineStart(content: string) {
    content == "" || content[|content| - 1] == '\n'
  }

  lemma EventsAfter(c: Codec, base: string, more: string)
    requires LawfulCodec(c) && AtLineStart(base)
    ensures Events(c, base + more) == Events(c, base) + Events(c, more)
  {
    NoEvents(c);
    if base == "" {
      assert base + more == more;
    } else {
      var a := base[..|base| - 1];
      assert base == a + ("\n" + "");
      assert base + more == a + ("\n" + more);
      EventsConcat(c, a, more);
      EventsConcat(c, a, "");
    }
  }

  lemma NoEvents(c: Codec)
    requires LawfulCodec(c)
    ensures Events(c, "") == []
  {
    assert Lines("") == [""];
    RecordsOfOne(c, "");
  }

  /** A newline after a torn tail starts a new line and changes no event. */
  lemma NewlineKeepsEvents(c: Codec, content: string)
    requires LawfulCodec(c)
    ensures Events(c, content + "\n") == Events(c, content)
  {
    NoEvents(c);
    assert content + "\n" == content + ("\n" + "");
    EventsConcat(c, content, "");
  }

  /** The text of a batch: each record on its own line. */
  function Encoded(c: Codec, batch: seq<Stored>): string {
    if batch == [] then "" else c.encode(batch[0]) + ("\n" + Encoded(c, batch[1..]))
  }

  /** How many records of a batch are readable in the first n characters of its text. */
  function Landed(c: Codec, batch: seq<Stored>, n: nat): nat {
    if batch == [] || n < |c.encode(batch[0])| then 0
    else if n == |c.encode(batch[0])| then 1
    else 1 + Landed(c, batch[1..], n - |c.encode(batch[0])| - 1)
  }

  lemma {:induction false} EncodedAtLineStart(c: Codec, batch: seq<Stored>)
    ensures AtLineStart(Encoded(c, batch))
  {
    if batch != [] {
      var rest := Encoded(c, batch[1..]);
      EncodedAtLineStart(c, batch[1..]);
      var text := Encoded(c, batch);
      assert text[|text| - 1] == ("\n" + rest)[|rest|];
    }
  }

  lemma OneRecord(c: Codec, line: string)
    requires '\n' !in line
    ensures Events(c, line) == match c.decode(line) case Some(r) => [r] case None => []
  {
    OneLine(line);
    RecordsOfOne(c, line);
  }

  /** After any prefix of a batch's text has been written, exactly the first Landed records are readable,
      and the tail is torn harmlessly. */
  lemma {:induction false} TornBatch(c: Codec, batch: seq<Stored>, n: nat)
    requires LawfulCodec(c) && n <= |Encoded(c, batch)|
    ensures Landed(c, batch, n) <= |batch|
    ensures Events(c, Encoded(c, batch)[..n]) == batch[..Landed(c, batch, n)]
    decreases |batch|
  {
    if batch == [] {
      NoEvents(c);
    } else {
      var line, rest := c.encode(batch[0]), Encoded(c, batch[1..]);
      var text := line + ("\n" + rest);
      assert '\n' !in line && c.decode(line) == Some(batch[0]);
      if n <= |line| {
        assert text[..n] == line[..n];
        OneRecord(c, line[..n]);
        if n < |line| {
          assert c.decode(line[..n]) == None;
        } else {
          assert line[..n] == line;
        }
      } else {
        var m := n - |line| - 1;
        assert text[..n] == line + ("\n" + rest[..m]);
        OneRecord(c, line);
        EventsConcat(c, line, rest[..m]);
        TornBatch(c, batch[1..], m);
        assert [batch[0]] + batch[1..][..Landed(c, batch[1..], m)] == batch[..Landed(c, batch, n)];
      }
    }
  }

  lemma {:induction false} LandedGrows(c: Codec, batch: seq<Stored>, m: nat, n: nat)
    requires m <= n
    ensures Landed(c, batch, m) <= Landed(c, batch, n)
    decreases |batch|
  {
    if batch != [] && m > |c.encode(batch[0])| {
      LandedGrows(c, batch[1..], m - |c.encode(batch[0])| - 1, n - |c.encode(batch[0])| - 1);
    }
  }

  lemma {:induction false} LandedAll(c: Codec, batch: seq<Stored>)
    ensures Landed(c, batch, |Encoded(c, batch)|) == |batch|
    decreases |batch|
  {
    if batch != [] {
      LandedAll(c, batch[1..]);
    }
  }

  // ---------------------------------------------------------------- loading

  /** What a store remembers of the file it loaded. */
  datatype Cursor = Cursor(log: seq<Stored>, nextPosition: int, lastHash: string, knownSize: Option<nat>, needsNewline: bool)

  function NextPosition(log: seq<Stored>): int {
    if log == [] then 1
    else
      var next, p := NextPosition(log[..|log| - 1]), log[|log| - 1].content.globalPosition;
      if p >= next then p + 1 else next
  }

  function PreserveAll(records: seq<Stored>): seq<Stored> {
    seq(|records|, i requires 0 <= i < |records| => Preserve(records[i]))
  }

  /** _loadFromFile. */
  function Load(c: Codec, file: Option<string>): Cursor {
    match file
    case None => Cursor([], 1, GENESIS_HASH, None, false)
    case Some(content) =>
      var records := Events(c, content);
      Cursor(PreserveAll(records), NextPosition(records), LastHash(records), Some(|content|), !AtLineStart(content))
  }

  /** What loading remembers of any file, good or not: the records with lone hash fields dropped, a next position
      above all of theirs and no higher than needed, the last hash that occurs, and the file's size and end. */
  lemma LoadExactly(c: Codec, content: string)
    ensures var cursor, records := Load(c, Some(content)), Events(c, content);
            && |cursor.log| == |records|
            && (forall i :: 0 <= i < |records| ==> cursor.log[i].content == records[i].content)
            && (forall i :: 0 <= i < |records| ==> cursor.log[i].hash == if records[i].Hashed() then records[i].hash else None)
            && (forall i :: 0 <= i < |records| ==> cursor.log[i].previousHash == if records[i].Hashed() then records[i].previousHash else None)
            && (forall i :: 0 <= i < |records| ==> records[i].content.globalPosition < cursor.nextPosition)
            && (cursor.nextPosition == 1 || exists i :: 0 <= i < |records| && cursor.nextPosition == records[i].content.globalPosition + 1)
            && cursor.nextPosition >= 1
            && (cursor.lastHash == GENESIS_HASH || exists i :: 0 <= i < |records| && records[i].hash == Some(cursor.lastHash))
            && (forall i :: 0 <= i < |records| && records[i].hash.Some? ==>
                  records[i].hash.value == cursor.lastHash || exists j :: i < j < |records| && records[j].hash.Some?)
            && cursor.knownSize == Some(|content|)
            && (cursor.needsNewline <==> content != "" && content[|content| - 1] != '\n')
  {
    hide Events;
    PositionsBelow(Events(c, content));
    LastHashOccurs(Events(c, content));
  }

  lemma {:induction false} PositionsBelow(records: seq<Stored>)
    ensures forall i :: 0 <= i < |records| ==> records[i].content.globalPosition < NextPosition(records)
    ensures NextPosition(records) == 1 || exists i :: 0 <= i < |records| && NextPosition(records) == records[i].content.globalPosition + 1
    ensures NextPosition(records) >= 1
  {
    if records != [] {
      var n := |records| - 1;
      PositionsBelow(records[..n]);
      assert forall i :: 0 <= i < n ==> records[..n][i] == records[i];
      if NextPosition(records) == NextPosition(records[..n]) != 1 {
        var i :| 0 <= i < n && NextPosition(records[..n]) == records[..n][i].content.globalPosition + 1;
        assert NextPosition(records) == records[i].content.globalPosition + 1;
      }
    }
  }

  lemma {:induction false} LastHashOccurs(records: seq<Stored>)
    ensures LastHash(records) == GENESIS_HASH || exists i :: 0 <= i < |records| && records[i].hash == Some(LastHash(records))
    ensures forall i :: 0 <= i < |records| && records[i].hash.Some? ==>
              records[i].hash.value == LastHash(records) || exists j :: i < j < |records| && records[j].hash.Some?
  {
    if records != [] {
      var n := |records| - 1;
      LastHashOccurs(records[..n]);
      assert forall i :: 0 <= i < n ==> records[..n][i] == records[i];
    }
  }

  function Text(file: Option<string>): string {
    match file case Some(content) => content case None => ""
  }

  lemma {:induction false} GoodNextPosition(s: Scheme, log: seq<Stored>)
    requires GoodLog(s, log)
    ensures NextPosition(log) == |log| + 1
  {
    hide Continues;
    if log != [] {
      GoodLogPrefix(s, log, |log| - 1);
      GoodNextPosition(s, log[..|log| - 1]);
      LastPosition(s, log);
    }
  }

  /** Loading a good file keeps every record as it is, and the cursor continues the log. */
  lemma LoadGood(s: Scheme, c: Codec, file: Option<string>)
    requires LawfulCodec(c) && GoodLog(s, Events(c, Text(file)))
    ensures var log := Events(c, Text(file));
            && Load(c, file).log == log
            && Load(c, file).nextPosition == |log| + 1
            && Load(c, file).lastHash == LastHash(log)
  {
    hide Events, Continues;
    NoEvents(c);
    var log := Events(c, Text(file));
    GoodNextPosition(s, log);
    forall i | 0 <= i < |log|
      ensures Preserve(log[i]) == log[i]
    {
      assert GoodNext(s, log[..i], log[i]);
      assert Whole(log[i]);
    }
    assert PreserveAll(log) == log;
  }

  // ---------------------------------------------------------------- appending from a cursor

  /** _detectExternalAdvanceUnderLock. */
  predicate AdvancedExternally(file: Option<string>, knownSize: Option<nat>) {
    match file
    case None => knownSize.Some?
    case Some(content) => |content| > (match knownSize case Some(n) => n case None => 0)
  }

  /** The records append builds: version, position and link all come from the cached cursor. */
  function CursorBatch(s: Scheme, c: Cursor, streamId: string, events: seq<DomainEvent>, now: string): (batch: seq<Stored>)
    ensures |batch| == |events|
  {
    Chain(s, streamId, events, now, Version(c.log, streamId) + 1, c.nextPosition, c.lastHash)
  }

  function AppendText(file: Option<string>, data: string): Option<string> {
    Some(Text(file) + data)
  }

  function Grown(knownSize: Option<nat>, bytes: nat): Option<nat> {
    Some((match knownSize case Some(n) => n case None => 0) + bytes)
  }

  /** The head of a log after a batch of hashed records. */
  lemma LastHashAfter(log: seq<Stored>, batch: seq<Stored>)
    requires forall k :: 0 <= k < |batch| ==> batch[k].hash.Some?
    ensures LastHash(log + batch) == if batch == [] then LastHash(log) else batch[|batch| - 1].hash.value
  {
    if batch == [] {
      assert log + batch == log;
    }
  }

  /** A whole batch written at a line start adds exactly its records. */
  lemma EventsAppended(c: Codec, base: string, batch: seq<Stored>)
    requires LawfulCodec(c) && AtLineStart(base)
    ensures Events(c, base + Encoded(c, batch)) == Events(c, base) + batch
  {
    hide Events, LawfulCodec, Encoded, Landed;
    var text := Encoded(c, batch);
    EventsAfter(c, base, text);
    TornBatch(c, batch, |text|);
    LandedAll(c, batch);
    assert text[..|text|] == text && batch[..|batch|] == batch;
  }

  lemma {:induction false} EncodedSplit(c: Codec, batch: seq<Stored>, k: nat)
    requires k <= |batch|
    ensures Encoded(c, batch) == Encoded(c, batch[..k]) + Encoded(c, batch[k..])
  {
    if k > 0 {
      var line := c.encode(batch[0]);
      EncodedSplit(c, batch[1..], k - 1);
      assert batch[..k][1..] == batch[1..][..k - 1] && batch[1..][k - 1..] == batch[k..];
      assert Encoded(c, batch[..k]) == line + ("\n" + Encoded(c, batch[1..][..k - 1]));
      assert Encoded(c, batch) == Encoded(c, batch[..k]) + Encoded(c, batch[k..]);
    }
  }

  /** Any number of first records of a batch can be what a torn write leaves. */
  lemma PrefixCanSurvive(c: Codec, batch: seq<Stored>, k: nat)
    requires LawfulCodec(c) && k <= |batch|
    ensures var n := |Encoded(c, batch[..k])|;
            && n <= |Encoded(c, batch)| && Encoded(c, batch)[..n] == Encoded(c, batch[..k])
            && Events(c, Encoded(c, batch)[..n]) == batch[..k]
  {
    hide Events, LawfulCodec, Encoded;
    EncodedSplit(c, batch, k);
    EventsAppended(c, "", batch[..k]);
    NoEvents(c);
    assert "" + Encoded(c, batch[..k]) == Encoded(c, batch[..k]);
  }

  /** A torn write leaves all of a batch or nothing, wherever it stops, if and only if the batch is at most
      one record. */
  lemma AtomicExactly(c: Codec, batch: seq<Stored>)
    requires LawfulCodec(c)
    ensures (forall n :: 0 <= n <= |Encoded(c, batch)| ==> Events(c, Encoded(c, batch)[..n]) == [] || Events(c, Encoded(c, batch)[..n]) == batch)
       <==> |batch| <= 1
  {
    hide Events, LawfulCodec, Encoded, Landed;
    if |batch| <= 1 {
      forall n | 0 <= n <= |Encoded(c, batch)|
        ensures Events(c, Encoded(c, batch)[..n]) == [] || Events(c, Encoded(c, batch)[..n]) == batch
      {
        TornBatch(c, batch, n);
      }
    } else {
      PrefixCanSurvive(c, batch, 1);
      assert |batch[..1]| == 1;
    }
  }
}
