/** Any number of store instances, in any number of processes, sharing one JSONL file and its lockfile:
    every interleaving of open, lock, size check, newline repair, partial write, failure, crash, stale-lock
    break and reopen (packages/event-store/src/jsonl-store.ts). */
module LogProtocol {
  import opened Wrappers
  import opened HashChain
  import opened EventLog

  datatype Env = Env(scheme: Scheme, codec: Codec)

  /** The lockfile: which process created it, and whether that process has written its pid yet. */
  datatype Lock = Free | Held(pid: nat, written: bool)

  /** Where an instance is inside append. Suspecting and Breaking are the stale-lock break: the pid that was
      read has not been probed yet, or has been found dead. */
  datatype Phase =
    | Idle
    | Suspecting(holder: nat)
    | Breaking(holder: nat)
    | Creating
    | Locked
    | Repairing(batch: seq<Stored>)
    | Repaired(batch: seq<Stored>)
    | Writing(batch: seq<Stored>, written: nat)
    | Releasing

  /** Between creating the lockfile and releasing it. */
  predicate Inside(p: Phase) {
    !p.Idle? && !p.Suspecting? && !p.Breaking?
  }

  /** A store instance. `view` is the text its cursor was computed from; no step reads it. */
  datatype Instance = Instance(pid: nat, cursor: Cursor, phase: Phase, view: string)

  /** An append that reached the file; `returned` once its state is committed. */
  datatype Attempt = Attempt(streamId: string, events: seq<DomainEvent>, batch: seq<Stored>, returned: bool)

  datatype System = System(
    file: Option<string>, lock: Lock, alive: set<nat>, instances: map<nat, Instance>, attempts: seq<Attempt>)

  datatype Action =
    | StartProcess(pid: nat)
    | Crash(pid: nat)
    | Open(id: nat, pid: nat)
    | CreateLock(id: nat)
    | WritePid(id: nat)
    | FailPid(id: nat)
    | ReadPid(id: nat)
    | Probe(id: nat)
    | Unlink(id: nat, removed: bool)
    | Begin(id: nat, streamId: string, events: seq<DomainEvent>, now: string)
    | WriteNewline(id: nat)
    | CommitNewline(id: nat)
    | WriteChunk(id: nat, size: nat)
    | FailWrite(id: nat)
    | Commit(id: nat)
    | Release(id: nat, removed: bool)

  // ---------------------------------------------------------------- steps

  function WithInstance(s: System, id: nat, i: Instance): System {
    s.(instances := s.instances[id := i])
  }

  function LastReturned(attempts: seq<Attempt>): seq<Attempt>
    requires attempts != []
  {
    attempts[|attempts| - 1 := attempts[|attempts| - 1].(returned := true)]
  }

  /** One step of the whole system; None when the action cannot happen in this state. */
  function Next(env: Env, s: System, a: Action): Option<System> {
    match a
    case StartProcess(pid) =>
      if pid in s.alive then None else Some(s.(alive := s.alive + {pid}))
    case Crash(pid) =>
      if pid !in s.alive then None
      else Some(s.(alive := s.alive - {pid},
                   instances := map id | id in s.instances && s.instances[id].pid != pid :: s.instances[id]))
    case Open(id, pid) =>
      var cursor := Load(env.codec, s.file);
      if id in s.instances || pid !in s.alive || AllFaults(env.scheme, cursor.log) != [] then None
      else Some(WithInstance(s, id, Instance(pid, cursor, Idle, Text(s.file))))
    case _ =>
      if a.id !in s.instances then None else InstanceStep(env, s, s.instances[a.id], a)
  }

  function InstanceStep(env: Env, s: System, i: Instance, a: Action): Option<System>
    requires !a.StartProcess? && !a.Crash? && !a.Open?
  {
    match a
    case CreateLock(id) =>
      if i.phase != Idle || s.lock != Free then None
      else Some(WithInstance(s.(lock := Held(i.pid, false)), id, i.(phase := Creating)))
    case WritePid(id) =>
      if i.phase != Creating then None
      else Some(WithInstance(if s.lock == Held(i.pid, false) then s.(lock := Held(i.pid, true)) else s, id, i.(phase := Locked)))
    case FailPid(id) =>
      if i.phase != Creating then None else Some(WithInstance(s, id, i.(phase := Idle)))
    case ReadPid(id) =>
      if i.phase != Idle || s.lock == Free || !s.lock.written || s.lock.pid == i.pid then None
      else Some(WithInstance(s, id, i.(phase := Suspecting(s.lock.pid))))
    case Probe(id) =>
      if !i.phase.Suspecting? then None
      else Some(WithInstance(s, id, i.(phase := if i.phase.holder in s.alive then Idle else Breaking(i.phase.holder))))
    case Unlink(id, removed) =>
      if !i.phase.Breaking? then None
      else Some(WithInstance(if removed then s.(lock := Free) else s, id, i.(phase := Idle)))
    case Begin(id, streamId, events, now) =>
      if i.phase != Locked || streamId == "" || events == [] then None
      else if AdvancedExternally(s.file, i.cursor.knownSize) then Some(WithInstance(s, id, i.(phase := Releasing)))
      else
        var batch := CursorBatch(env.scheme, i.cursor, streamId, events, now);
        var phase := if i.cursor.needsNewline then Repairing(batch) else Writing(batch, 0);
        Some(WithInstance(s.(attempts := s.attempts + [Attempt(streamId, events, batch, false)]), id, i.(phase := phase)))
    case WriteNewline(id) =>
      if !i.phase.Repairing? then None
      else Some(WithInstance(s.(file := AppendText(s.file, "\n")), id, i.(phase := Repaired(i.phase.batch))))
    case CommitNewline(id) =>
      if !i.phase.Repaired? then None
      else
        var cursor := i.cursor.(knownSize := Grown(i.cursor.knownSize, 1), needsNewline := false);
        Some(WithInstance(s, id, i.(cursor := cursor, phase := Writing(i.phase.batch, 0), view := i.view + "\n")))
    case WriteChunk(id, size) =>
      if !i.phase.Writing? || i.phase.written + size > |Encoded(env.codec, i.phase.batch)| then None
      else
        var data := Encoded(env.codec, i.phase.batch)[i.phase.written..i.phase.written + size];
        Some(WithInstance(s.(file := AppendText(s.file, data)), id, i.(phase := Writing(i.phase.batch, i.phase.written + size))))
    case FailWrite(id) =>
      if i.phase.Repairing? || i.phase.Repaired? || i.phase.Writing? then Some(WithInstance(s, id, i.(phase := Releasing)))
      else None
    case Commit(id) =>
      if !i.phase.Writing? || i.phase.written != |Encoded(env.codec, i.phase.batch)| || s.attempts == [] then None
      else
        var batch, c := i.phase.batch, i.cursor;
        var lastHash := if batch == [] || batch[|batch| - 1].hash == None then c.lastHash else batch[|batch| - 1].hash.value;
        var cursor := Cursor(c.log + batch, c.nextPosition + |batch|, lastHash, Grown(c.knownSize, i.phase.written), c.needsNewline);
        Some(WithInstance(s.(attempts := LastReturned(s.attempts)), id,
                          i.(cursor := cursor, phase := Releasing, view := i.view + Encoded(env.codec, batch))))
    case Release(id, removed) =>
      if i.phase != Releasing then None
      else Some(WithInstance(if removed then s.(lock := Free) else s, id, i.(phase := Idle)))
  }

  /** A run: actions that cannot happen are skipped. */
  function Run(env: Env, s: System, actions: seq<Action>): System {
    if actions == [] then s
    else
      var before := Run(env, s, actions[..|actions| - 1]);
      match Next(env, before, actions[|actions| - 1]) case Some(t) => t case None => before
  }

  function Log(env: Env, s: System): seq<Stored> {
    Events(env.codec, Text(s.file))
  }

  // ---------------------------------------------------------------- what survives of the attempts

  /** The first counts[i] records of each batch, one batch after the other. */
  function Survivors(attempts: seq<Attempt>, counts: seq<nat>): seq<Stored>
    requires |counts| == |attempts|
  {
    if attempts == [] then []
    else
      var n := |attempts| - 1;
      Survivors(attempts[..n], counts[..n]) + attempts[n].batch[..Min(counts[n], |attempts[n].batch|)]
  }

  function Min(a: nat, b: nat): nat {
    if a < b then a else b
  }

  ghost predicate CountsFit(attempts: seq<Attempt>, counts: seq<nat>) {
    && |counts| == |attempts|
    && forall i :: 0 <= i < |attempts| ==> counts[i] <= |attempts[i].batch| && (attempts[i].returned ==> counts[i] == |attempts[i].batch|)
  }

  ghost predicate AccountsBy(initial: seq<Stored>, log: seq<Stored>, attempts: seq<Attempt>, counts: seq<nat>) {
    CountsFit(attempts, counts) && log == initial + Survivors(attempts, counts)
  }

  /** The log is what was there before, then of each attempt, in order, a prefix of its batch -- the whole
      batch if the append returned. */
  ghost predicate Accounts(initial: seq<Stored>, log: seq<Stored>, attempts: seq<Attempt>) {
    exists counts :: AccountsBy(initial, log, attempts, counts)
  }

  lemma AccountsSnoc(initial: seq<Stored>, log: seq<Stored>, attempts: seq<Attempt>, a: Attempt, n: nat)
    requires Accounts(initial, log, attempts) && n <= |a.batch| && (a.returned ==> n == |a.batch|)
    ensures Accounts(initial, log + a.batch[..n], attempts + [a])
  {
    var counts :| AccountsBy(initial, log, attempts, counts);
    var attempts', counts' := attempts + [a], counts + [n];
    assert attempts'[..|attempts|] == attempts && counts'[..|attempts|] == counts;
    assert Survivors(attempts', counts') == Survivors(attempts, counts) + a.batch[..n];
    assert CountsFit(attempts', counts');
    assert log + a.batch[..n] == initial + Survivors(attempts', counts');
    assert AccountsBy(initial, log + a.batch[..n], attempts', counts');
  }

  // ---------------------------------------------------------------- the invariant

  ghost predicate CursorOf(c: Codec, cursor: Cursor, view: string) {
    var log := Events(c, view);
    && cursor.log == log && cursor.nextPosition == |log| + 1 && cursor.lastHash == LastHash(log)
    && (match cursor.knownSize case Some(n) => n == |view| case None => view == "")
    && (cursor.needsNewline <==> !AtLineStart(view))
  }

  /** The last attempt is this batch, not returned; without it the attempts account for the base log. */
  ghost predicate InFlight(env: Env, initial: seq<Stored>, attempts: seq<Attempt>, base: seq<Stored>, batch: seq<Stored>) {
    && GoodLog(env.scheme, base + batch) && batch != []
    && attempts != [] && attempts[|attempts| - 1].batch == batch && !attempts[|attempts| - 1].returned
    && Accounts(initial, base, attempts[..|attempts| - 1])
  }

  /** What the file holds while an instance is inside append. */
  ghost predicate PhaseOk(env: Env, initial: seq<Stored>, file: string, attempts: seq<Attempt>, i: Instance) {
    match i.phase
    case Repairing(batch) =>
      file == i.view && i.cursor.needsNewline && InFlight(env, initial, attempts, i.cursor.log, batch)
    case Repaired(batch) =>
      file == i.view + "\n" && InFlight(env, initial, attempts, i.cursor.log, batch)
    case Writing(batch, written) =>
      && written <= |Encoded(env.codec, batch)| && file == i.view + Encoded(env.codec, batch)[..written]
      && AtLineStart(i.view) && InFlight(env, initial, attempts, i.cursor.log, batch)
    case _ => true
  }

  predicate HoldsLock(lock: Lock, i: Instance) {
    Inside(i.phase) ==> lock == Held(i.pid, !i.phase.Creating?)
  }

  ghost predicate InstanceOk(env: Env, initial: seq<Stored>, s: System, i: Instance) {
    && i.pid in s.alive && i.view <= Text(s.file) && CursorOf(env.codec, i.cursor, i.view)
    && (i.cursor.knownSize.Some? ==> s.file.Some?)
    && HoldsLock(s.lock, i) && PhaseOk(env, initial, Text(s.file), s.attempts, i)
  }

  /** At most one instance is inside append. */
  ghost predicate Exclusive(instances: map<nat, Instance>) {
    forall j, k :: j in instances && k in instances && Inside(instances[j].phase) && Inside(instances[k].phase) ==> j == k
  }

  ghost predicate LogOk(env: Env, initial: seq<Stored>, s: System) {
    && GoodLog(env.scheme, Log(env, s)) && Accounts(initial, Log(env, s), s.attempts)
    && forall k :: 0 <= k < |s.attempts| ==> AllCarried(s.attempts[k].batch, s.attempts[k].streamId, s.attempts[k].events)
  }

  ghost predicate Inv(env: Env, initial: seq<Stored>, s: System) {
    && LogOk(env, initial, s) && Exclusive(s.instances)
    && forall id :: id in s.instances ==> InstanceOk(env, initial, s, s.instances[id])
  }

  // ---------------------------------------------------------------- one step of one instance

  /** What a step of one instance keeps: the log stays good and only grows, and the instance stays sound. */
  ghost predicate StepKeeps(env: Env, initial: seq<Stored>, s: System, t: System, i: Instance, i': Instance) {
    && LogOk(env, initial, t) && Log(env, s) <= Log(env, t)
    && Text(s.file) <= Text(t.file) && (s.file.Some? ==> t.file.Some?)
    && InstanceOk(env, initial, t, i')
  }

  lemma NewlineStep(env: Env, initial: seq<Stored>, s: System, i: Instance, batch: seq<Stored>)
    requires LawfulCodec(env.codec) && LogOk(env, initial, s) && InstanceOk(env, initial, s, i) && i.phase == Repairing(batch)
    ensures var t := s.(file := AppendText(s.file, "\n"));
            StepKeeps(env, initial, s, t, i, i.(phase := Repaired(batch)))
  {
    hide Events, LawfulCodec, GoodLog, Accounts;
    NewlineKeepsEvents(env.codec, Text(s.file));
  }

  lemma NewlineCommitStep(env: Env, initial: seq<Stored>, s: System, i: Instance, batch: seq<Stored>)
    requires LawfulCodec(env.codec) && LogOk(env, initial, s) && InstanceOk(env, initial, s, i) && i.phase == Repaired(batch)
    ensures var cursor := i.cursor.(knownSize := Grown(i.cursor.knownSize, 1), needsNewline := false);
            StepKeeps(env, initial, s, s, i, i.(cursor := cursor, phase := Writing(batch, 0), view := i.view + "\n"))
  {
    hide Events, LawfulCodec, GoodLog, Accounts;
    NewlineKeepsEvents(env.codec, i.view);
    assert Encoded(env.codec, batch)[..0] == "";
    assert Text(s.file) == i.view + "\n" + "";
  }

  /** While a batch is being written, the readable log is the base and the records landed so far. */
  lemma LogWhileWriting(env: Env, base: seq<Stored>, view: string, batch: seq<Stored>, written: nat)
    requires LawfulCodec(env.codec) && AtLineStart(view) && written <= |Encoded(env.codec, batch)|
    ensures Landed(env.codec, batch, written) <= |batch|
    ensures Events(env.codec, view + Encoded(env.codec, batch)[..written]) == Events(env.codec, view) + batch[..Landed(env.codec, batch, written)]
  {
    hide Events, LawfulCodec, Encoded, Landed;
    EventsAfter(env.codec, view, Encoded(env.codec, batch)[..written]);
    TornBatch(env.codec, batch, written);
  }

  /** Any number of landed records keeps the log good and accounted for. */
  lemma LandedLogOk(env: Env, initial: seq<Stored>, attempts: seq<Attempt>, base: seq<Stored>, batch: seq<Stored>, n: nat)
    requires InFlight(env, initial, attempts, base, batch) && n <= |batch|
    ensures GoodLog(env.scheme, base + batch[..n])
    ensures Accounts(initial, base + batch[..n], attempts)
    ensures n == |batch| ==> Accounts(initial, base + batch[..n], LastReturned(attempts))
  {
    hide GoodLog, Accounts;
    var last := attempts[|attempts| - 1];
    assert (base + batch)[..|base| + n] == base + batch[..n];
    GoodLogPrefix(env.scheme, base + batch, |base| + n);
    AccountsSnoc(initial, base, attempts[..|attempts| - 1], last, n);
    assert attempts == attempts[..|attempts| - 1] + [last];
    if n == |batch| {
      AccountsSnoc(initial, base, attempts[..|attempts| - 1], last.(returned := true), n);
      assert LastReturned(attempts) == attempts[..|attempts| - 1] + [last.(returned := true)];
    }
  }

  lemma ChunkStep(env: Env, initial: seq<Stored>, s: System, i: Instance, batch: seq<Stored>, written: nat, size: nat)
    requires LawfulCodec(env.codec) && LogOk(env, initial, s) && InstanceOk(env, initial, s, i) && i.phase == Writing(batch, written)
    requires written + size <= |Encoded(env.codec, batch)|
    ensures var t := s.(file := AppendText(s.file, Encoded(env.codec, batch)[written..written + size]));
            StepKeeps(env, initial, s, t, i, i.(phase := Writing(batch, written + size)))
  {
    hide Events, LawfulCodec, GoodLog, Accounts, Encoded, Landed;
    var text, base := Encoded(env.codec, batch), i.cursor.log;
    assert text[..written] + text[written..written + size] == text[..written + size];
    assert i.view + text[..written] + text[written..written + size] == i.view + text[..written + size];
    LogWhileWriting(env, base, i.view, batch, written);
    LogWhileWriting(env, base, i.view, batch, written + size);
    LandedGrows(env.codec, batch, written, written + size);
    LandedLogOk(env, initial, s.attempts, base, batch, Landed(env.codec, batch, written + size));
    assert base + batch[..Landed(env.codec, batch, written)] <= base + batch[..Landed(env.codec, batch, written + size)];
  }

  lemma SomeText(c: Codec, batch: seq<Stored>)
    requires batch != []
    ensures Encoded(c, batch) != ""
  {
  }

  lemma CommitStep(env: Env, initial: seq<Stored>, s: System, i: Instance, batch: seq<Stored>)
    requires LawfulCodec(env.codec) && LogOk(env, initial, s) && InstanceOk(env, initial, s, i)
    requires i.phase == Writing(batch, |Encoded(env.codec, batch)|)
    ensures var lastHash := if batch == [] || batch[|batch| - 1].hash == None then i.cursor.lastHash else batch[|batch| - 1].hash.value;
            var c := i.cursor;
            var cursor := Cursor(c.log + batch, c.nextPosition + |batch|, lastHash, Grown(c.knownSize, |Encoded(env.codec, batch)|), c.needsNewline);
            StepKeeps(env, initial, s, s.(attempts := LastReturned(s.attempts)), i,
                      i.(cursor := cursor, phase := Releasing, view := i.view + Encoded(env.codec, batch)))
  {
    hide Events, LawfulCodec, GoodLog, Accounts, Encoded, Landed, LastHash;
    var text, base, n := Encoded(env.codec, batch), i.cursor.log, |s.attempts| - 1;
    assert text[..|text|] == text && batch[..|batch|] == batch;
    assert text != "" by { SomeText(env.codec, batch); }
    LogWhileWriting(env, base, i.view, batch, |text|);
    LandedAll(env.codec, batch);
    LandedLogOk(env, initial, s.attempts, base, batch, |batch|);
    assert AllCarried(batch, s.attempts[n].streamId, s.attempts[n].events);
    LastHashAfter(base, batch);
    assert AtLineStart(i.view + text) by { EncodedAtLineStart(env.codec, batch); }
  }

  /** The size check under the lock: passing it means nothing was added since the cursor was computed. */
  lemma NoAdvanceMeansCurrent(env: Env, s: System, i: Instance)
    requires i.view <= Text(s.file) && CursorOf(env.codec, i.cursor, i.view)
    requires !AdvancedExternally(s.file, i.cursor.knownSize)
    ensures i.view == Text(s.file)
  {
  }

  /** The cursor's batch continues the log it was computed from. */
  lemma BeginBatch(env: Env, i: Instance, streamId: string, events: seq<DomainEvent>, now: string)
    requires CursorOf(env.codec, i.cursor, i.view) && GoodLog(env.scheme, i.cursor.log)
    ensures var batch := CursorBatch(env.scheme, i.cursor, streamId, events, now);
            && batch == Batch(env.scheme, i.cursor.log, streamId, events, now)
            && GoodLog(env.scheme, i.cursor.log + batch) && AllCarried(batch, streamId, events)
  {
    hide Events, GoodLog, LastHash, Version, AtLineStart, AllCarried;
    var log := i.cursor.log;
    ChainIsBatch(env.scheme, log, streamId, events, now);
    BatchIsGood(env.scheme, log, streamId, events, now);
    ChainCarries(env.scheme, streamId, events, now, Version(log, streamId) + 1, |log| + 1, LastHash(log));
  }

  lemma BeginStep(env: Env, initial: seq<Stored>, s: System, i: Instance, streamId: string, events: seq<DomainEvent>, now: string)
    requires LawfulCodec(env.codec) && LogOk(env, initial, s) && InstanceOk(env, initial, s, i) && i.phase == Locked && events != []
    requires !AdvancedExternally(s.file, i.cursor.knownSize)
    ensures var batch := CursorBatch(env.scheme, i.cursor, streamId, events, now);
            var phase := if i.cursor.needsNewline then Repairing(batch) else Writing(batch, 0);
            StepKeeps(env, initial, s, s.(attempts := s.attempts + [Attempt(streamId, events, batch, false)]), i, i.(phase := phase))
  {
    hide Events, LawfulCodec, GoodLog, Accounts, Encoded, LastHash, Version, AllCarried, CursorBatch;
    NoAdvanceMeansCurrent(env, s, i);
    var batch, log := CursorBatch(env.scheme, i.cursor, streamId, events, now), i.cursor.log;
    var a := Attempt(streamId, events, batch, false);
    BeginBatch(env, i, streamId, events, now);
    AccountsSnoc(initial, log, s.attempts, a, 0);
    assert log + batch[..0] == log;
    assert (s.attempts + [a])[..|s.attempts|] == s.attempts;
    assert i.view + Encoded(env.codec, batch)[..0] == i.view;
  }

  /** The size check is exact: append goes ahead if and only if nothing was added to the file since the
      instance's cursor was computed. */
  lemma SizeCheckIsExact(env: Env, initial: seq<Stored>, s: System, i: Instance)
    requires InstanceOk(env, initial, s, i)
    ensures AdvancedExternally(s.file, i.cursor.knownSize) <==> i.view != Text(s.file)
  {
  }

  // ---------------------------------------------------------------- every step

  lemma OthersOk(env: Env, initial: seq<Stored>, s: System, t: System, j: Instance)
    requires InstanceOk(env, initial, s, j)
    requires j.pid in t.alive && Text(s.file) <= Text(t.file) && (s.file.Some? ==> t.file.Some?)
    requires Inside(j.phase) ==> s.file == t.file && s.lock == t.lock && s.attempts == t.attempts
    ensures InstanceOk(env, initial, t, j)
  {
    hide CursorOf, InFlight;
  }

  /** A step of instance id that only it could take leaves the others sound. */
  lemma StepInv(env: Env, initial: seq<Stored>, s: System, t: System, id: nat, i': Instance)
    requires Inv(env, initial, s) && id in s.instances && t.instances == s.instances[id := i'] && t.alive == s.alive
    requires StepKeeps(env, initial, s, t, s.instances[id], i')
    requires Inside(s.instances[id].phase) || s.lock == Free
    ensures Inv(env, initial, t)
  {
    hide LogOk, InstanceOk;
    forall j | j in t.instances
      ensures InstanceOk(env, initial, t, t.instances[j])
      ensures j != id ==> !Inside(t.instances[j].phase)
    {
      if j != id {
        var o := s.instances[j];
        assert InstanceOk(env, initial, s, o);
        BusyHoldsLock(env, initial, s, o);
        assert !Inside(o.phase);
        OthersOk(env, initial, s, t, o);
      }
    }
  }

  lemma BusyHoldsLock(env: Env, initial: seq<Stored>, s: System, i: Instance)
    requires InstanceOk(env, initial, s, i)
    ensures i.pid in s.alive && HoldsLock(s.lock, i)
    ensures Inside(i.phase) ==> s.lock.Held? && s.lock.pid == i.pid
    ensures i.view <= Text(s.file) && CursorOf(env.codec, i.cursor, i.view)
  {
  }

  /** Moving between phases that put no demand on the file. */
  lemma QuietStep(env: Env, initial: seq<Stored>, s: System, lock: Lock, i: Instance, phase: Phase)
    requires LogOk(env, initial, s) && InstanceOk(env, initial, s, i)
    requires phase.Idle? || phase.Creating? || phase.Locked? || phase.Releasing?
    requires HoldsLock(lock, i.(phase := phase))
    ensures StepKeeps(env, initial, s, s.(lock := lock), i, i.(phase := phase))
  {
    hide Events, GoodLog, Accounts, CursorOf;
  }

  /** No instance is between creating the lockfile and releasing it. */
  ghost predicate NobodyInside(instances: map<nat, Instance>) {
    forall id :: id in instances ==> !Inside(instances[id].phase)
  }

  /** A step is clean unless it removes the lockfile, as stale, while an instance is inside append. */
  ghost predicate CleanStep(s: System, a: Action) {
    a.Unlink? && a.removed && a.id in s.instances && s.instances[a.id].phase.Breaking? ==> NobodyInside(s.instances)
  }

  /** The steps of breaking a stale lock: reading the pid, probing it, and -- when nobody is inside append --
      removing the lockfile. */
  lemma BreakStep(env: Env, initial: seq<Stored>, s: System, lock: Lock, id: nat, phase: Phase)
    requires Inv(env, initial, s) && id in s.instances && !Inside(s.instances[id].phase) && !Inside(phase)
    requires lock == s.lock || NobodyInside(s.instances)
    ensures Inv(env, initial, WithInstance(s.(lock := lock), id, s.instances[id].(phase := phase)))
  {
    hide InstanceOk, LogOk;
    var t := WithInstance(s.(lock := lock), id, s.instances[id].(phase := phase));
    forall j | j in t.instances
      ensures InstanceOk(env, initial, t, t.instances[j])
    {
      assert InstanceOk(env, initial, s, s.instances[j]);
      BusyHoldsLock(env, initial, s, s.instances[j]);
      if j == id {
        OutsideOk(env, initial, s, s.instances[id], phase);
        OthersOk(env, initial, s, t, t.instances[id]);
      } else {
        OthersOk(env, initial, s, t, s.instances[j]);
      }
    }
    assert LogOk(env, initial, t) by { SameLog(env, initial, s, t); }
  }

  lemma OutsideOk(env: Env, initial: seq<Stored>, s: System, i: Instance, phase: Phase)
    requires InstanceOk(env, initial, s, i) && !Inside(phase)
    ensures InstanceOk(env, initial, s, i.(phase := phase))
  {
  }

  lemma SameLog(env: Env, initial: seq<Stored>, s: System, t: System)
    requires LogOk(env, initial, s) && t.file == s.file && t.attempts == s.attempts
    ensures LogOk(env, initial, t)
  {
  }

  /** What one instance's step amounts to for the whole system. */
  lemma InstanceStepInv(env: Env, initial: seq<Stored>, s: System, a: Action)
    requires LawfulCodec(env.codec) && Inv(env, initial, s)
    requires !a.StartProcess? && !a.Crash? && !a.Open? && a.id in s.instances
    requires InstanceStep(env, s, s.instances[a.id], a).Some? && CleanStep(s, a)
    ensures var t := InstanceStep(env, s, s.instances[a.id], a).value;
            Inv(env, initial, t) && Log(env, s) <= Log(env, t) && Text(s.file) <= Text(t.file)
  {
    hide LogOk, LawfulCodec, Encoded, AdvancedExternally, InstanceOk, Exclusive, CursorBatch, Events;
    var t := InstanceStep(env, s, s.instances[a.id], a).value;
    if a.ReadPid? || a.Probe? || a.Unlink? {
      var lock := if a.Unlink? && a.removed then Free else s.lock;
      BreakStep(env, initial, s, lock, a.id, t.instances[a.id].phase);
      assert t == WithInstance(s.(lock := lock), a.id, s.instances[a.id].(phase := t.instances[a.id].phase));
    } else {
      assert InstanceOk(env, initial, s, s.instances[a.id]);
      InstanceStepKeeps(env, initial, s, a, s.instances[a.id]);
      StepInv(env, initial, s, t, a.id, t.instances[a.id]);
    }
  }

  lemma InstanceStepKeeps(env: Env, initial: seq<Stored>, s: System, a: Action, i: Instance)
    requires LawfulCodec(env.codec) && LogOk(env, initial, s) && InstanceOk(env, initial, s, i)
    requires !a.StartProcess? && !a.Crash? && !a.Open? && !a.ReadPid? && !a.Probe? && !a.Unlink?
    requires InstanceStep(env, s, i, a).Some?
    ensures var t := InstanceStep(env, s, i, a).value;
            && a.id in t.instances && t.instances == s.instances[a.id := t.instances[a.id]] && t.alive == s.alive
            && StepKeeps(env, initial, s, t, i, t.instances[a.id])
            && (Inside(i.phase) || s.lock == Free)
  {
    hide PhaseOk, CursorOf, LawfulCodec, Encoded, AdvancedExternally, CursorBatch, Events, GoodLog, Accounts, AllCarried;
    var t := InstanceStep(env, s, i, a).value;
    BusyHoldsLock(env, initial, s, i);
    match a {
      case WriteNewline(_) => NewlineStep(env, initial, s, i, i.phase.batch);
      case CommitNewline(_) => NewlineCommitStep(env, initial, s, i, i.phase.batch);
      case WriteChunk(_, size) => ChunkStep(env, initial, s, i, i.phase.batch, i.phase.written, size);
      case Commit(_) => CommitStep(env, initial, s, i, i.phase.batch);
      case Begin(_, streamId, events, now) =>
        if !AdvancedExternally(s.file, i.cursor.knownSize) {
          BeginStep(env, initial, s, i, streamId, events, now);
        } else {
          QuietStep(env, initial, s, s.lock, i, Releasing);
        }
      case CreateLock(_) => QuietStep(env, initial, s, Held(i.pid, false), i, Creating);
      case WritePid(_) => QuietStep(env, initial, s, Held(i.pid, true), i, Locked);
      case FailPid(_) => QuietStep(env, initial, s, s.lock, i, Idle);
      case FailWrite(_) => QuietStep(env, initial, s, s.lock, i, Releasing);
      case Release(_, removed) => QuietStep(env, initial, s, if removed then Free else s.lock, i, Idle);
    }
  }

  lemma ProcessStepInv(env: Env, initial: seq<Stored>, s: System, t: System, pid: nat)
    requires Inv(env, initial, s)
    requires t == s.(alive := s.alive + {pid})
          || t == s.(alive := s.alive - {pid}, instances := map id | id in s.instances && s.instances[id].pid != pid :: s.instances[id])
    ensures Inv(env, initial, t)
  {
    hide InstanceOk, Events, GoodLog, Accounts;
    forall j | j in t.instances
      ensures InstanceOk(env, initial, t, t.instances[j])
    {
      BusyHoldsLock(env, initial, s, s.instances[j]);
      OthersOk(env, initial, s, t, s.instances[j]);
    }
  }

  /** Opening a sound file is never refused, and the new instance's cursor fits what it read -- even while
      another instance is in the middle of a write. */
  lemma OpenStepInv(env: Env, initial: seq<Stored>, s: System, id: nat, pid: nat)
    requires LawfulCodec(env.codec) && Inv(env, initial, s) && id !in s.instances && pid in s.alive
    ensures Next(env, s, Open(id, pid)).Some?
    ensures Inv(env, initial, Next(env, s, Open(id, pid)).value)
  {
    hide InstanceOk, Events, GoodLog, Accounts, AllFaults, Load, Inv;
    FreshInstanceOk(env, initial, s, pid);
    AddIdleInstance(env, initial, s, id, Instance(pid, Load(env.codec, s.file), Idle, Text(s.file)));
  }

  lemma FreshInstanceOk(env: Env, initial: seq<Stored>, s: System, pid: nat)
    requires LawfulCodec(env.codec) && Inv(env, initial, s) && pid in s.alive
    ensures AllFaults(env.scheme, Load(env.codec, s.file).log) == []
    ensures InstanceOk(env, initial, s, Instance(pid, Load(env.codec, s.file), Idle, Text(s.file)))
  {
    hide Events, GoodLog, Accounts, AllFaults, InstanceOk, LawfulCodec;
    var cursor := Load(env.codec, s.file);
    LoadGood(env.scheme, env.codec, s.file);
    GoodLogVerified(env.scheme, cursor.log);
    AcceptsExactly(env.scheme, cursor.log);
    NoEvents(env.codec);
    assert CursorOf(env.codec, cursor, Text(s.file));
    IdleInstanceOk(env, initial, s, Instance(pid, cursor, Idle, Text(s.file)));
  }

  lemma IdleInstanceOk(env: Env, initial: seq<Stored>, s: System, i: Instance)
    requires i.pid in s.alive && i.phase == Idle && i.view <= Text(s.file) && CursorOf(env.codec, i.cursor, i.view)
    requires i.cursor.knownSize.Some? ==> s.file.Some?
    ensures InstanceOk(env, initial, s, i)
  {
  }

  lemma AddIdleInstance(env: Env, initial: seq<Stored>, s: System, id: nat, i: Instance)
    requires Inv(env, initial, s) && id !in s.instances && i.phase == Idle && InstanceOk(env, initial, s, i)
    ensures Inv(env, initial, WithInstance(s, id, i))
  {
    hide InstanceOk, Events, GoodLog, Accounts;
    var t := WithInstance(s, id, i);
    forall j | j in t.instances
      ensures InstanceOk(env, initial, t, t.instances[j])
    {
      var o := t.instances[j];
      assert InstanceOk(env, initial, s, o);
      BusyHoldsLock(env, initial, s, o);
      OthersOk(env, initial, s, t, o);
    }
  }

  /** Every clean step of the system keeps the invariant and only extends the file and the readable log. */
  lemma NextKeepsInv(env: Env, initial: seq<Stored>, s: System, a: Action)
    requires LawfulCodec(env.codec) && Inv(env, initial, s) && Next(env, s, a).Some? && CleanStep(s, a)
    ensures var t := Next(env, s, a).value;
            Inv(env, initial, t) && Log(env, s) <= Log(env, t) && Text(s.file) <= Text(t.file)
  {
    hide Inv, Events, InstanceStep, AllFaults, Load, LawfulCodec, CleanStep;
    var t := Next(env, s, a).value;
    match a {
      case StartProcess(pid) => ProcessStepInv(env, initial, s, t, pid);
      case Crash(pid) => ProcessStepInv(env, initial, s, t, pid);
      case Open(id, pid) => OpenStepInv(env, initial, s, id, pid);
      case _ => InstanceStepInv(env, initial, s, a);
    }
  }

  // ---------------------------------------------------------------- whole runs

  /** No process yet; the file, if any, holds a good log (perhaps with a torn tail), and the lockfile may
      have been left behind. */
  function Start(file: Option<string>, lock: Lock): System {
    System(file, lock, {}, map[], [])
  }

  lemma StartInv(env: Env, file: Option<string>, lock: Lock)
    requires GoodLog(env.scheme, Events(env.codec, Text(file)))
    ensures Inv(env, Events(env.codec, Text(file)), Start(file, lock))
  {
    hide Events, GoodLog;
    var initial := Events(env.codec, Text(file));
    assert AccountsBy(initial, initial, [], []);
  }

  /** No step of the run removes a lockfile, as stale, while an instance is inside append. */
  ghost predicate CleanRun(env: Env, s: System, actions: seq<Action>) {
    actions == [] ||
    (var n := |actions| - 1;
     CleanRun(env, s, actions[..n]) && CleanStep(Run(env, s, actions[..n]), actions[n]))
  }

  lemma {:induction false} RunKeepsInv(env: Env, initial: seq<Stored>, s: System, actions: seq<Action>)
    requires LawfulCodec(env.codec) && Inv(env, initial, s) && CleanRun(env, s, actions)
    ensures Inv(env, initial, Run(env, s, actions))
  {
    hide Inv, Next, LawfulCodec, CleanStep;
    if actions != [] {
      var n := |actions| - 1;
      RunKeepsInv(env, initial, s, actions[..n]);
      var before := Run(env, s, actions[..n]);
      if Next(env, before, actions[n]).Some? {
        NextKeepsInv(env, initial, before, actions[n]);
      }
    }
  }

  lemma ReachableInv(env: Env, file: Option<string>, lock: Lock, actions: seq<Action>)
    requires LawfulCodec(env.codec) && GoodLog(env.scheme, Events(env.codec, Text(file))) && CleanRun(env, Start(file, lock), actions)
    ensures Inv(env, Events(env.codec, Text(file)), Run(env, Start(file, lock), actions))
  {
    hide Inv, Run, Events, GoodLog, LawfulCodec;
    StartInv(env, file, lock);
    RunKeepsInv(env, Events(env.codec, Text(file)), Start(file, lock), actions);
  }

  /** In every clean run the file loads whole and verifies, its events form one unforked gap-free chain, and it
      holds the initial events, then of each append in turn a prefix -- all of it if the append returned. */
  lemma EveryRunKeepsTheLog(env: Env, file: Option<string>, lock: Lock, actions: seq<Action>)
    requires LawfulCodec(env.codec) && GoodLog(env.scheme, Events(env.codec, Text(file))) && CleanRun(env, Start(file, lock), actions)
    ensures var s := Run(env, Start(file, lock), actions);
            var log := Load(env.codec, s.file).log;
            && log == Log(env, s) && GoodLog(env.scheme, log) && AllFaults(env.scheme, log) == []
            && Accounts(Events(env.codec, Text(file)), log, s.attempts)
            && (forall k :: 0 <= k < |s.attempts| ==> AllCarried(s.attempts[k].batch, s.attempts[k].streamId, s.attempts[k].events))
  {
    hide Events, GoodLog, LawfulCodec, AllFaults, Load, Accounts, InstanceOk, AllCarried, Run, Next;
    var s := Run(env, Start(file, lock), actions);
    ReachableInv(env, file, lock, actions);
    LoadGood(env.scheme, env.codec, s.file);
    GoodLogVerified(env.scheme, Log(env, s));
    AcceptsExactly(env.scheme, Log(env, s));
  }

  lemma RunOnce(env: Env, s: System, actions: seq<Action>, a: Action)
    ensures Run(env, s, actions + [a]) == match Next(env, Run(env, s, actions), a) case Some(t) => t case None => Run(env, s, actions)
  {
    hide Next;
    assert (actions + [a])[..|actions|] == actions;
  }

  /** In every clean run at most one instance is inside append, and it holds the lock in its own name; further
      steps never shrink the file or the readable log. */
  lemma EveryStepIsExclusiveAndAppends(env: Env, file: Option<string>, lock: Lock, actions: seq<Action>, a: Action)
    requires LawfulCodec(env.codec) && GoodLog(env.scheme, Events(env.codec, Text(file)))
    requires CleanRun(env, Start(file, lock), actions) && CleanStep(Run(env, Start(file, lock), actions), a)
    ensures var s, t := Run(env, Start(file, lock), actions), Run(env, Start(file, lock), actions + [a]);
            && Exclusive(s.instances) && (forall id :: id in s.instances ==> HoldsLock(s.lock, s.instances[id]))
            && Log(env, s) <= Log(env, t) && Text(s.file) <= Text(t.file)
  {
    hide Events, GoodLog, LawfulCodec, Run, Next, InstanceOk, LogOk;
    var s := Run(env, Start(file, lock), actions);
    var initial := Events(env.codec, Text(file));
    ReachableInv(env, file, lock, actions);
    RunOnce(env, Start(file, lock), actions, a);
    forall id | id in s.instances
      ensures HoldsLock(s.lock, s.instances[id])
    {
      BusyHoldsLock(env, initial, s, s.instances[id]);
    }
    if Next(env, s, a).Some? {
      NextKeepsInv(env, initial, s, a);
    }
  }

  /** A store can always be reopened: in every clean run a live process that opens the file is never refused. */
  lemma ReopenNeverRefused(env: Env, file: Option<string>, lock: Lock, actions: seq<Action>, id: nat, pid: nat)
    requires LawfulCodec(env.codec) && GoodLog(env.scheme, Events(env.codec, Text(file))) && CleanRun(env, Start(file, lock), actions)
    requires var s := Run(env, Start(file, lock), actions); id !in s.instances && pid in s.alive
    ensures Next(env, Run(env, Start(file, lock), actions), Open(id, pid)).Some?
  {
    hide Events, GoodLog, LawfulCodec, Run, Next;
    ReachableInv(env, file, lock, actions);
    OpenStepInv(env, Events(env.codec, Text(file)), Run(env, Start(file, lock), actions), id, pid);
  }

  // ---------------------------------------------------------------- one append, start to finish

  /** The steps of opening the file and appending without interference, up to the first byte of the batch. */
  function SoloStart(env: Env, s: System, id: nat, pid: nat, streamId: string, events: seq<DomainEvent>, now: string): seq<Action> {
    [Open(id, pid), CreateLock(id), WritePid(id)] + [Begin(id, streamId, events, now)]
    + (if Load(env.codec, s.file).needsNewline then [WriteNewline(id), CommitNewline(id)] else [])
  }

  function Solo(env: Env, s: System, id: nat, pid: nat, streamId: string, events: seq<DomainEvent>, now: string): seq<Action> {
    var size := |Encoded(env.codec, CursorBatch(env.scheme, Load(env.codec, s.file), streamId, events, now))|;
    SoloStart(env, s, id, pid, streamId, events, now) + [WriteChunk(id, size), Commit(id), Release(id, true)]
  }

  lemma {:induction false} RunConcat(env: Env, s: System, a: seq<Action>, b: seq<Action>)
    ensures Run(env, s, a + b) == Run(env, Run(env, s, a), b)
  {
    hide Next;
    if b == [] {
      assert a + b == a;
    } else {
      var n := |b| - 1;
      assert (a + b)[..|a| + n] == a + b[..n];
      RunConcat(env, s, a, b[..n]);
    }
  }

  lemma RunThree(env: Env, s: System, a: Action, b: Action, c: Action, s1: System, s2: System, s3: System)
    requires Next(env, s, a) == Some(s1) && Next(env, s1, b) == Some(s2) && Next(env, s2, c) == Some(s3)
    ensures Run(env, s, [a, b, c]) == s3
  {
    hide Next;
    RunOnce(env, s, [], a);
    RunOnce(env, s, [a], b);
    RunOnce(env, s, [a, b], c);
    assert [] + [a] == [a] && [a] + [b] == [a, b] && [a, b] + [c] == [a, b, c];
  }

  lemma SoloLocks(env: Env, initial: seq<Stored>, s: System, id: nat, pid: nat)
    requires LawfulCodec(env.codec) && Inv(env, initial, s) && s.lock == Free && pid in s.alive && id !in s.instances
    ensures Run(env, s, [Open(id, pid), CreateLock(id), WritePid(id)])
         == WithInstance(s.(lock := Held(pid, true)), id, Instance(pid, Load(env.codec, s.file), Locked, Text(s.file)))
  {
    hide Inv, LawfulCodec, Events, AllFaults, Load;
    OpenStepInv(env, initial, s, id, pid);
    var i := Instance(pid, Load(env.codec, s.file), Idle, Text(s.file));
    var s1 := WithInstance(s, id, i);
    var s2 := WithInstance(s1.(lock := Held(pid, false)), id, i.(phase := Creating));
    var s3 := WithInstance(s2.(lock := Held(pid, true)), id, i.(phase := Locked));
    RunThree(env, s, Open(id, pid), CreateLock(id), WritePid(id), s1, s2, s3);
    assert s3 == WithInstance(s.(lock := Held(pid, true)), id, i.(phase := Locked));
  }

  lemma SoloBegins(env: Env, s: System, id: nat, i: Instance, streamId: string, events: seq<DomainEvent>, now: string)
    requires id in s.instances && s.instances[id] == i && i.cursor == Load(env.codec, s.file) && i.phase == Locked
    requires streamId != "" && events != []
    ensures var batch := CursorBatch(env.scheme, i.cursor, streamId, events, now);
            var a := Attempt(streamId, events, batch, false);
            Next(env, s, Begin(id, streamId, events, now))
            == Some(WithInstance(s.(attempts := s.attempts + [a]), id,
                                 i.(phase := if i.cursor.needsNewline then Repairing(batch) else Writing(batch, 0))))
  {
    hide CursorBatch, Events, NextPosition, LastHash, PreserveAll;
  }

  lemma SoloRepairs(env: Env, s: System, id: nat, i: Instance, batch: seq<Stored>)
    requires id in s.instances && s.instances[id] == i && i.phase == Repairing(batch) && i.view == Text(s.file)
    ensures var cursor := i.cursor.(knownSize := Grown(i.cursor.knownSize, 1), needsNewline := false);
            Run(env, s, [WriteNewline(id), CommitNewline(id)])
            == WithInstance(s.(file := Some(i.view + "\n")), id, i.(cursor := cursor, phase := Writing(batch, 0), view := i.view + "\n"))
  {
    var s1 := WithInstance(s.(file := Some(i.view + "\n")), id, i.(phase := Repaired(batch)));
    RunOnce(env, s, [], WriteNewline(id));
    RunOnce(env, s, [WriteNewline(id)], CommitNewline(id));
    assert [] + [WriteNewline(id)] == [WriteNewline(id)] && [WriteNewline(id)] + [CommitNewline(id)] == [WriteNewline(id), CommitNewline(id)];
    assert Next(env, s, WriteNewline(id)) == Some(s1);
  }

  lemma SoloWrites(env: Env, s: System, id: nat, i: Instance, batch: seq<Stored>)
    requires id in s.instances && s.instances[id] == i && i.phase == Writing(batch, 0) && i.view == Text(s.file) && s.attempts != []
    ensures var size := |Encoded(env.codec, batch)|;
            var t := Run(env, s, [WriteChunk(id, size), Commit(id), Release(id, true)]);
            && t.file == Some(i.view + Encoded(env.codec, batch))
            && t.attempts == LastReturned(s.attempts) && t.lock == Free
            && id in t.instances && t.instances[id].phase == Idle && t.instances[id].view == i.view + Encoded(env.codec, batch)
  {
    hide Encoded, LastReturned;
    var text := Encoded(env.codec, batch);
    var s1 := WithInstance(s.(file := Some(i.view + text)), id, i.(phase := Writing(batch, |text|)));
    assert text[0..0 + |text|] == text;
    assert Next(env, s, WriteChunk(id, |text|)) == Some(s1);
    var s2 := Next(env, s1, Commit(id)).value;
    var s3 := Next(env, s2, Release(id, true)).value;
    RunThree(env, s, WriteChunk(id, |text|), Commit(id), Release(id, true), s1, s2, s3);
  }

  /** An idle instance that has seen the whole file remembers exactly what reopening would load. */
  lemma CurrentCursorIsReload(env: Env, initial: seq<Stored>, s: System, i: Instance)
    requires LawfulCodec(env.codec) && GoodLog(env.scheme, Log(env, s)) && InstanceOk(env, initial, s, i)
    requires i.view == Text(s.file) && i.view != ""
    ensures i.cursor == Load(env.codec, s.file)
  {
    hide Events, GoodLog, LastHash, PhaseOk, PreserveAll, NextPosition;
    LoadGood(env.scheme, env.codec, s.file);
  }

  lemma RunNothing(env: Env, s: System)
    ensures Run(env, s, []) == s
  {
  }

  /** The log after some first records of a batch have been written, after a repair if one was needed. */
  lemma SoloLog(env: Env, initial: seq<Stored>, s: System, view: string, pid: nat, streamId: string, events: seq<DomainEvent>, now: string, k: nat)
    requires LawfulCodec(env.codec) && Inv(env, initial, s) && pid in s.alive && events != [] && k <= |events|
    requires view == if AtLineStart(Text(s.file)) then Text(s.file) else Text(s.file) + "\n"
    ensures var batch := CursorBatch(env.scheme, Load(env.codec, s.file), streamId, events, now);
            && batch == Batch(env.scheme, Log(env, s), streamId, events, now)
            && Events(env.codec, view + Encoded(env.codec, batch[..k])) == Log(env, s) + batch[..k]
            && view + Encoded(env.codec, batch) != ""
  {
    hide Events, GoodLog, LawfulCodec, CursorBatch, Encoded, Landed, Load, Run, Next;
    FreshInstanceOk(env, initial, s, pid);
    var i := Instance(pid, Load(env.codec, s.file), Idle, Text(s.file));
    assert CursorOf(env.codec, i.cursor, i.view);
    var batch := CursorBatch(env.scheme, i.cursor, streamId, events, now);
    BeginBatch(env, i, streamId, events, now);
    NewlineKeepsEvents(env.codec, Text(s.file));
    EventsAppended(env.codec, view, batch[..k]);
    SomeText(env.codec, batch);
  }

  /** The state in which the first byte of the batch is about to be written. */
  lemma SoloReady(env: Env, initial: seq<Stored>, s: System, id: nat, pid: nat, streamId: string, events: seq<DomainEvent>, now: string)
    requires LawfulCodec(env.codec) && Inv(env, initial, s) && s.lock == Free
    requires pid in s.alive && id !in s.instances && streamId != "" && events != []
    ensures var t := Run(env, s, SoloStart(env, s, id, pid, streamId, events, now));
            var batch := CursorBatch(env.scheme, Load(env.codec, s.file), streamId, events, now);
            && id in t.instances && t.instances[id].pid == pid && t.instances[id].phase == Writing(batch, 0)
            && t.alive == s.alive && t.attempts == s.attempts + [Attempt(streamId, events, batch, false)]
            && t.instances[id].view == Text(t.file)
            && Text(t.file) == (if AtLineStart(Text(s.file)) then Text(s.file) else Text(s.file) + "\n")
  {
    hide Run, Next, Events, GoodLog, LawfulCodec, CursorBatch, Encoded, Landed, Load, Inv;
    var cursor := Load(env.codec, s.file);
    var batch := CursorBatch(env.scheme, cursor, streamId, events, now);
    var lock, begin := [Open(id, pid), CreateLock(id), WritePid(id)], Begin(id, streamId, events, now);
    var repair := if cursor.needsNewline then [WriteNewline(id), CommitNewline(id)] else [];
    SoloLocks(env, initial, s, id, pid);
    var s1 := Run(env, s, lock);
    SoloBegins(env, s1, id, s1.instances[id], streamId, events, now);
    RunOnce(env, s, lock, begin);
    var s2 := Run(env, s, lock + [begin]);
    if cursor.needsNewline {
      SoloRepairs(env, s2, id, s2.instances[id], batch);
    } else {
      RunNothing(env, s2);
    }
    RunConcat(env, s, lock + [begin], repair);
    FreshInstanceOk(env, initial, s, pid);
    assert CursorOf(env.codec, cursor, Text(s.file));
  }

  lemma SoloReload(env: Env, initial: seq<Stored>, t: System, id: nat)
    requires LawfulCodec(env.codec) && Inv(env, initial, t) && id in t.instances
    requires t.instances[id].view == Text(t.file) && t.instances[id].view != ""
    ensures t.instances[id].cursor == Load(env.codec, t.file)
  {
    hide Events, GoodLog, LawfulCodec, Load, InstanceOk;
    CurrentCursorIsReload(env, initial, t, t.instances[id]);
  }

  /** Whatever came before -- torn tails, crashes, stale cursors -- a reopened store with the lock free can
      append: the log grows by exactly the batch that continues it, the append returns, the lock is free
      again and the live cursor is the one a further reopening would load. */
  lemma ReopenedStoreAppends(env: Env, initial: seq<Stored>, s: System, id: nat, pid: nat, streamId: string, events: seq<DomainEvent>, now: string)
    requires LawfulCodec(env.codec) && Inv(env, initial, s) && s.lock == Free
    requires pid in s.alive && id !in s.instances && streamId != "" && events != []
    ensures var t := Run(env, s, Solo(env, s, id, pid, streamId, events, now));
            var batch := Batch(env.scheme, Log(env, s), streamId, events, now);
            && Log(env, t) == Log(env, s) + batch && t.attempts == s.attempts + [Attempt(streamId, events, batch, true)]
            && t.lock == Free && id in t.instances && t.instances[id].cursor == Load(env.codec, t.file)
  {
    hide Run, Next, Events, GoodLog, LawfulCodec, CursorBatch, Encoded, Load, Inv, SoloStart, AtLineStart;
    var batch := CursorBatch(env.scheme, Load(env.codec, s.file), streamId, events, now);
    var start := SoloStart(env, s, id, pid, streamId, events, now);
    var write := [WriteChunk(id, |Encoded(env.codec, batch)|), Commit(id), Release(id, true)];
    SoloReady(env, initial, s, id, pid, streamId, events, now);
    var ready := Run(env, s, start);
    SoloWrites(env, ready, id, ready.instances[id], batch);
    RunConcat(env, s, start, write);
    var t := Run(env, s, start + write);
    assert LastReturned(ready.attempts) == s.attempts + [Attempt(streamId, events, batch, true)];
    SoloLog(env, initial, s, ready.instances[id].view, pid, streamId, events, now, |events|);
    assert batch[..|events|] == batch;
    SoloKeepsInv(env, initial, s, id, pid, streamId, events, now, write);
    SoloReload(env, initial, t, id);
  }

  lemma SoloKeepsInv(env: Env, initial: seq<Stored>, s: System, id: nat, pid: nat, streamId: string, events: seq<DomainEvent>, now: string, rest: seq<Action>)
    requires LawfulCodec(env.codec) && Inv(env, initial, s) && forall k :: 0 <= k < |rest| ==> !rest[k].Unlink?
    ensures Inv(env, initial, Run(env, s, SoloStart(env, s, id, pid, streamId, events, now) + rest))
  {
    hide Inv, Run, Load, LawfulCodec;
    NoUnlinkIsClean(env, s, SoloStart(env, s, id, pid, streamId, events, now) + rest);
    RunKeepsInv(env, initial, s, SoloStart(env, s, id, pid, streamId, events, now) + rest);
  }

  /** A crash can leave any number of first records of an append: every prefix is what remains of some run. */
  lemma TornAppendSurvives(env: Env, initial: seq<Stored>, s: System, id: nat, pid: nat, streamId: string, events: seq<DomainEvent>, now: string, k: nat)
    requires LawfulCodec(env.codec) && Inv(env, initial, s) && s.lock == Free
    requires pid in s.alive && id !in s.instances && streamId != "" && events != [] && k <= |events|
    ensures var batch := Batch(env.scheme, Log(env, s), streamId, events, now);
            var torn := [WriteChunk(id, |Encoded(env.codec, batch[..k])|), Crash(pid)];
            var t := Run(env, s, SoloStart(env, s, id, pid, streamId, events, now) + torn);
            && Log(env, t) == Log(env, s) + batch[..k]
            && t.attempts == s.attempts + [Attempt(streamId, events, batch, false)] && pid !in t.alive
  {
    hide Run, Next, Events, GoodLog, LawfulCodec, CursorBatch, Encoded, Load, Inv, SoloStart, AtLineStart;
    var start := SoloStart(env, s, id, pid, streamId, events, now);
    SoloReady(env, initial, s, id, pid, streamId, events, now);
    var ready := Run(env, s, start);
    SoloLog(env, initial, s, ready.instances[id].view, pid, streamId, events, now, k);
    var batch := Batch(env.scheme, Log(env, s), streamId, events, now);
    SoloTears(env, ready, id, ready.instances[id], batch, k);
    RunConcat(env, s, start, [WriteChunk(id, |Encoded(env.codec, batch[..k])|), Crash(pid)]);
  }

  lemma SoloTears(env: Env, s: System, id: nat, i: Instance, batch: seq<Stored>, k: nat)
    requires LawfulCodec(env.codec) && k <= |batch| && i.pid in s.alive
    requires id in s.instances && s.instances[id] == i && i.phase == Writing(batch, 0) && i.view == Text(s.file)
    ensures var t := Run(env, s, [WriteChunk(id, |Encoded(env.codec, batch[..k])|), Crash(i.pid)]);
            t.file == Some(i.view + Encoded(env.codec, batch[..k])) && t.attempts == s.attempts && i.pid !in t.alive
  {
    hide Encoded, LawfulCodec, Run, Events;
    var n := |Encoded(env.codec, batch[..k])|;
    PrefixCanSurvive(env.codec, batch, k);
    assert Encoded(env.codec, batch)[0..0 + n] == Encoded(env.codec, batch[..k]);
    RunNothing(env, s);
    RunOnce(env, s, [], WriteChunk(id, n));
    RunOnce(env, s, [WriteChunk(id, n)], Crash(i.pid));
    assert [] + [WriteChunk(id, n)] == [WriteChunk(id, n)];
    assert [WriteChunk(id, n)] + [Crash(i.pid)] == [WriteChunk(id, n), Crash(i.pid)];
    assert Run(env, s, [WriteChunk(id, n)]) == Next(env, s, WriteChunk(id, n)).value;
  }

  /** In particular after any run that left the lock free. */
  lemma AfterAnyRunAReopenedStoreAppends(env: Env, file: Option<string>, lock: Lock, actions: seq<Action>,
                                         id: nat, pid: nat, streamId: string, events: seq<DomainEvent>, now: string)
    requires LawfulCodec(env.codec) && GoodLog(env.scheme, Events(env.codec, Text(file))) && CleanRun(env, Start(file, lock), actions)
    requires var s := Run(env, Start(file, lock), actions); s.lock == Free && pid in s.alive && id !in s.instances
    requires streamId != "" && events != []
    ensures var s := Run(env, Start(file, lock), actions);
            var t := Run(env, s, Solo(env, s, id, pid, streamId, events, now));
            && Log(env, t) == Log(env, s) + Batch(env.scheme, Log(env, s), streamId, events, now)
            && t.attempts != [] && t.attempts[|t.attempts| - 1].returned && t.lock == Free
  {
    hide Run, Events, GoodLog, LawfulCodec, Batch, Solo, Inv, Load;
    ReachableInv(env, file, lock, actions);
    ReopenedStoreAppends(env, Events(env.codec, Text(file)), Run(env, Start(file, lock), actions), id, pid, streamId, events, now);
  }

  lemma {:induction false} NoUnlinkIsClean(env: Env, s: System, actions: seq<Action>)
    requires forall k :: 0 <= k < |actions| ==> !actions[k].Unlink?
    ensures CleanRun(env, s, actions)
  {
    hide Next;
    if actions != [] {
      NoUnlinkIsClean(env, s, actions[..|actions| - 1]);
    }
  }

  // ---------------------------------------------------------------- breaking a stale lock

  predicate Suspicious(p: Phase) {
    p.Suspecting? || p.Breaking?
  }

  /** A step is unraced unless it creates the lockfile while an instance is between reading a pid from it and
      removing it as stale. */
  ghost predicate UnracedStep(s: System, a: Action) {
    a.CreateLock? ==> forall id :: id in s.instances ==> !Suspicious(s.instances[id].phase)
  }

  ghost predicate UnracedRun(env: Env, s: System, actions: seq<Action>) {
    actions == [] ||
    (var n := |actions| - 1;
     UnracedRun(env, s, actions[..n]) && UnracedStep(Run(env, s, actions[..n]), actions[n]))
  }

  /** Whoever is inside append while the pid is probed is the process whose pid was read; once that process
      has been found dead nobody is inside. */
  ghost predicate Unraced(instances: map<nat, Instance>) {
    forall j, k :: j in instances && k in instances && Inside(instances[k].phase) ==>
      && !instances[j].phase.Breaking?
      && (instances[j].phase.Suspecting? ==> instances[j].phase.holder == instances[k].pid)
  }

  /** How one instance's step moves it in and out of append and of breaking a lock. */
  lemma PhaseMoves(env: Env, s: System, a: Action)
    requires !a.StartProcess? && !a.Crash? && !a.Open? && a.id in s.instances
    requires InstanceStep(env, s, s.instances[a.id], a).Some?
    ensures var i, t := s.instances[a.id], InstanceStep(env, s, s.instances[a.id], a).value;
            && a.id in t.instances && t.instances == s.instances[a.id := t.instances[a.id]] && t.instances[a.id].pid == i.pid
            && (var p := t.instances[a.id].phase;
                && (Inside(p) ==> Inside(i.phase) || a.CreateLock?)
                && (Suspicious(p) ==> !Inside(i.phase))
                && (p.Suspecting? ==> s.lock.Held? && p.holder == s.lock.pid)
                && (p.Breaking? ==> i.phase.Suspecting? && i.phase.holder !in s.alive))
  {
    hide Encoded, CursorBatch, AdvancedExternally;
  }

  lemma NextKeepsUnraced(env: Env, initial: seq<Stored>, s: System, a: Action)
    requires Inv(env, initial, s) && Unraced(s.instances) && UnracedStep(s, a) && Next(env, s, a).Some?
    ensures Unraced(Next(env, s, a).value.instances) && CleanStep(s, a)
  {
    hide InstanceOk, LogOk, InstanceStep, Load, AllFaults, Events;
    if !a.StartProcess? && !a.Crash? && !a.Open? {
      PhaseMoves(env, s, a);
      forall k | k in s.instances
        ensures s.instances[k].pid in s.alive
        ensures Inside(s.instances[k].phase) ==> s.lock.Held? && s.lock.pid == s.instances[k].pid
      {
        BusyHoldsLock(env, initial, s, s.instances[k]);
      }
    }
  }

  /** The break is safe when no lockfile is created between one instance's reading of a pid and its unlink:
      no such run removes a lockfile while an instance is inside append. */
  lemma {:induction false} UnracedIsClean(env: Env, file: Option<string>, lock: Lock, actions: seq<Action>)
    requires LawfulCodec(env.codec) && GoodLog(env.scheme, Events(env.codec, Text(file)))
    requires UnracedRun(env, Start(file, lock), actions)
    ensures CleanRun(env, Start(file, lock), actions) && Unraced(Run(env, Start(file, lock), actions).instances)
  {
    hide Next, Inv, LawfulCodec, GoodLog, Events, Unraced, UnracedStep, CleanStep;
    var initial, start := Events(env.codec, Text(file)), Start(file, lock);
    if actions == [] {
      assert Unraced(start.instances) by { NobodyIsUnraced(start.instances); }
    } else {
      var n := |actions| - 1;
      UnracedIsClean(env, file, lock, actions[..n]);
      ReachableInv(env, file, lock, actions[..n]);
      var before := Run(env, start, actions[..n]);
      if Next(env, before, actions[n]).Some? {
        NextKeepsUnraced(env, initial, before, actions[n]);
      } else {
        ImpossibleIsClean(env, before, actions[n]);
      }
    }
  }

  lemma NobodyIsUnraced(instances: map<nat, Instance>)
    requires NobodyInside(instances)
    ensures Unraced(instances)
  {
  }

  lemma ImpossibleIsClean(env: Env, s: System, a: Action)
    requires Next(env, s, a) == None
    ensures CleanStep(s, a)
  {
  }

  /** Removing a lockfile as stale is safe for every continuation if and only if nobody is inside append at
      that moment: otherwise the remover can create the lockfile next, and two instances are inside. */
  lemma RemovalIsSafeExactly(env: Env, file: Option<string>, lock: Lock, actions: seq<Action>, id: nat)
    requires LawfulCodec(env.codec) && GoodLog(env.scheme, Events(env.codec, Text(file))) && CleanRun(env, Start(file, lock), actions)
    requires var s := Run(env, Start(file, lock), actions); id in s.instances && s.instances[id].phase.Breaking?
    ensures var s := Run(env, Start(file, lock), actions);
            var t := Run(env, s, [Unlink(id, true)]);
            (forall more :: CleanRun(env, t, more) ==> Exclusive(Run(env, t, more).instances)) <==> NobodyInside(s.instances)
  {
    hide LawfulCodec, GoodLog, Events, Inv, Next, Exclusive, NobodyInside;
    var s, initial := Run(env, Start(file, lock), actions), Events(env.codec, Text(file));
    var t := Run(env, s, [Unlink(id, true)]);
    ReachableInv(env, file, lock, actions);
    if NobodyInside(s.instances) {
      RunKeepsInv(env, initial, s, [Unlink(id, true)]);
      forall more | CleanRun(env, t, more)
        ensures Exclusive(Run(env, t, more).instances)
      {
        RunKeepsInv(env, initial, t, more);
        InvIsExclusive(env, initial, Run(env, t, more));
      }
    } else {
      RemoverEnters(env, s, id);
      NoUnlinkIsClean(env, t, [CreateLock(id)]);
    }
  }

  lemma InvIsExclusive(env: Env, initial: seq<Stored>, s: System)
    requires Inv(env, initial, s)
    ensures Exclusive(s.instances)
  {
  }

  lemma RemoverEnters(env: Env, s: System, id: nat)
    requires id in s.instances && s.instances[id].phase.Breaking? && !NobodyInside(s.instances)
    ensures !Exclusive(Run(env, Run(env, s, [Unlink(id, true)]), [CreateLock(id)]).instances)
  {
    var t := Run(env, s, [Unlink(id, true)]);
    RunOnce(env, s, [], Unlink(id, true));
    RunOnce(env, t, [], CreateLock(id));
    assert [] + [Unlink(id, true)] == [Unlink(id, true)] && [] + [CreateLock(id)] == [CreateLock(id)];
    RunNothing(env, s);
    RunNothing(env, t);
    var i := s.instances[id];
    assert t == WithInstance(s.(lock := Free), id, i.(phase := Idle));
    var u := Run(env, t, [CreateLock(id)]);
    assert u == WithInstance(t.(lock := Held(i.pid, false)), id, i.(phase := Creating));
    var j :| j in s.instances && Inside(s.instances[j].phase);
    assert j != id;
    assert u.instances[j] == s.instances[j] && Inside(u.instances[j].phase) && Inside(u.instances[id].phase);
    assert !Exclusive(u.instances);
  }

  /** Every instance is outside append and not about to remove a lockfile. */
  ghost predicate AllIdle(instances: map<nat, Instance>) {
    forall id :: id in instances ==> instances[id].phase == Idle
  }

  /** A lockfile without a pid -- left by a crash or by a pid write that failed -- is never removed again by any
      instance: whatever happens, nobody enters append any more. */
  lemma {:induction false} EmptyLockStays(env: Env, s: System, actions: seq<Action>)
    requires s.lock.Held? && !s.lock.written && AllIdle(s.instances)
    ensures var t := Run(env, s, actions); t.lock == s.lock && AllIdle(t.instances) && t.file == s.file
  {
    hide Next;
    if actions != [] {
      var n := |actions| - 1;
      EmptyLockStays(env, s, actions[..n]);
      if Next(env, Run(env, s, actions[..n]), actions[n]).Some? {
        EmptyLockStep(env, Run(env, s, actions[..n]), actions[n]);
      }
    }
  }

  lemma EmptyLockStep(env: Env, s: System, a: Action)
    requires s.lock.Held? && !s.lock.written && AllIdle(s.instances) && Next(env, s, a).Some?
    ensures var t := Next(env, s, a).value; t.lock == s.lock && AllIdle(t.instances) && t.file == s.file
  {
    hide Load, AllFaults, Events, CursorBatch, Encoded;
  }

  /** Two acquirers that both read a dead pid: the first breaks and creates the lock, then the second removes
      the first one's lockfile and creates its own. */
  const TwoBreakers: seq<Action> :=
    [StartProcess(1), StartProcess(2), Open(1, 1)] + [Open(2, 2), ReadPid(1), ReadPid(2)]
    + [Probe(1), Probe(2), Unlink(1, true)] + [CreateLock(1), Unlink(2, true), CreateLock(2)]

  lemma BothOpen(env: Env, file: Option<string>, i: Instance, j: Instance)
    requires i == Instance(1, Load(env.codec, file), Idle, Text(file)) && j == i.(pid := 2)
    requires AllFaults(env.scheme, i.cursor.log) == []
    ensures Run(env, Start(file, Held(9, true)), [StartProcess(1), StartProcess(2), Open(1, 1)])
         == System(file, Held(9, true), {1, 2}, map[1 := i], [])
  {
    hide Load, AllFaults, Run;
    var start := Start(file, Held(9, true));
    var s1 := start.(alive := {1});
    var s2 := start.(alive := {1, 2});
    assert Next(env, start, StartProcess(1)) == Some(s1) by { assert start.alive + {1} == {1}; }
    assert Next(env, s1, StartProcess(2)) == Some(s2) by { assert s1.alive + {2} == {1, 2}; }
    var s3 := s2.(instances := map[1 := i]);
    assert Next(env, s2, Open(1, 1)) == Some(s3) by { assert s2.instances[1 := i] == map[1 := i]; }
    RunThree(env, start, StartProcess(1), StartProcess(2), Open(1, 1), s1, s2, s3);
  }

  lemma BothSuspect(env: Env, file: Option<string>, i: Instance, j: Instance)
    requires i == Instance(1, Load(env.codec, file), Idle, Text(file)) && j == i.(pid := 2)
    requires AllFaults(env.scheme, i.cursor.log) == []
    ensures Run(env, System(file, Held(9, true), {1, 2}, map[1 := i], []), [Open(2, 2), ReadPid(1), ReadPid(2)])
         == System(file, Held(9, true), {1, 2}, map[1 := i.(phase := Suspecting(9)), 2 := j.(phase := Suspecting(9))], [])
  {
    hide Load, AllFaults, Run;
    var s := System(file, Held(9, true), {1, 2}, map[1 := i], []);
    var s1 := s.(instances := map[1 := i, 2 := j]);
    var s2 := s.(instances := map[1 := i.(phase := Suspecting(9)), 2 := j]);
    var s3 := s.(instances := map[1 := i.(phase := Suspecting(9)), 2 := j.(phase := Suspecting(9))]);
    assert s.instances[2 := j] == s1.instances;
    assert s1.instances[1 := i.(phase := Suspecting(9))] == s2.instances;
    assert s2.instances[2 := j.(phase := Suspecting(9))] == s3.instances;
    RunThree(env, s, Open(2, 2), ReadPid(1), ReadPid(2), s1, s2, s3);
  }

  lemma FirstRemoves(env: Env, s: System, i: Instance, j: Instance)
    requires s.instances == map[1 := i.(phase := Suspecting(9)), 2 := j.(phase := Suspecting(9))] && 9 !in s.alive
    ensures Run(env, s, [Probe(1), Probe(2), Unlink(1, true)])
         == s.(lock := Free, instances := map[1 := i.(phase := Idle), 2 := j.(phase := Breaking(9))])
  {
    hide Run;
    var s1 := s.(instances := map[1 := i.(phase := Breaking(9)), 2 := j.(phase := Suspecting(9))]);
    var s2 := s.(instances := map[1 := i.(phase := Breaking(9)), 2 := j.(phase := Breaking(9))]);
    var s3 := s.(lock := Free, instances := map[1 := i.(phase := Idle), 2 := j.(phase := Breaking(9))]);
    assert s.instances[1 := i.(phase := Breaking(9))] == s1.instances;
    assert s1.instances[2 := j.(phase := Breaking(9))] == s2.instances;
    assert s2.instances[1 := i.(phase := Idle)] == s3.instances;
    RunThree(env, s, Probe(1), Probe(2), Unlink(1, true), s1, s2, s3);
  }

  lemma BothEnter(env: Env, s: System, i: Instance, j: Instance)
    requires s.instances == map[1 := i.(phase := Idle), 2 := j.(phase := Breaking(9))] && s.lock == Free
    ensures !Exclusive(Run(env, s, [CreateLock(1), Unlink(2, true), CreateLock(2)]).instances)
  {
    hide Run;
    var s1 := s.(lock := Held(i.pid, false), instances := map[1 := i.(phase := Creating), 2 := j.(phase := Breaking(9))]);
    var s2 := s.(lock := Free, instances := map[1 := i.(phase := Creating), 2 := j.(phase := Idle)]);
    var s3 := s.(lock := Held(j.pid, false), instances := map[1 := i.(phase := Creating), 2 := j.(phase := Creating)]);
    assert s.instances[1 := i.(phase := Creating)] == s1.instances;
    assert s1.instances[2 := j.(phase := Idle)] == s2.instances;
    assert s2.instances[2 := j.(phase := Creating)] == s3.instances;
    RunThree(env, s, CreateLock(1), Unlink(2, true), CreateLock(2), s1, s2, s3);
    assert Inside(s3.instances[1].phase) && Inside(s3.instances[2].phase);
  }

  /** With a lockfile left behind by a dead process, on any sound file, that run ends with two instances
      inside append. */
  lemma TwoHolders(env: Env, file: Option<string>)
    requires LawfulCodec(env.codec) && GoodLog(env.scheme, Events(env.codec, Text(file)))
    ensures !Exclusive(Run(env, Start(file, Held(9, true)), TwoBreakers).instances)
  {
    hide LawfulCodec, GoodLog, Events, Load, AllFaults, Run, Next, Exclusive;
    var start := Start(file, Held(9, true));
    var i := Instance(1, Load(env.codec, file), Idle, Text(file));
    var j := i.(pid := 2);
    LoadGood(env.scheme, env.codec, file);
    GoodLogVerified(env.scheme, i.cursor.log);
    AcceptsExactly(env.scheme, i.cursor.log);
    BothOpen(env, file, i, j);
    BothSuspect(env, file, i, j);
    var suspected := System(file, Held(9, true), {1, 2}, map[1 := i.(phase := Suspecting(9)), 2 := j.(phase := Suspecting(9))], []);
    FirstRemoves(env, suspected, i, j);
    BothEnter(env, suspected.(lock := Free, instances := map[1 := i.(phase := Idle), 2 := j.(phase := Breaking(9))]), i, j);
    var a, b := [StartProcess(1), StartProcess(2), Open(1, 1)], [Open(2, 2), ReadPid(1), ReadPid(2)];
    var c, d := [Probe(1), Probe(2), Unlink(1, true)], [CreateLock(1), Unlink(2, true), CreateLock(2)];
    RunConcat(env, start, a, b);
    RunConcat(env, start, a + b, c);
    RunConcat(env, start, a + b + c, d);
    assert TwoBreakers == a + b + c + d;
  }
}
