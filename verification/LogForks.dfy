/** What a lockfile removed from under a running append can lead to: two instances inside append fork the log,
    and the file can no longer be opened (packages/event-store/src/jsonl-store.ts). */
module LogForks {
  import opened Wrappers
  import opened HashChain
  import opened EventLog
  import opened LogProtocol

  predicate NoUnlink(actions: seq<Action>) {
    forall k :: 0 <= k < |actions| ==> !actions[k].Unlink?
  }

  /** Some run without breaking a lock leads from one state to the other. */
  ghost predicate Leads(env: Env, s: System, t: System) {
    exists actions :: NoUnlink(actions) && Run(env, s, actions) == t
  }

  lemma LeadsNowhere(env: Env, s: System)
    ensures Leads(env, s, s)
  {
    assert Run(env, s, []) == s && NoUnlink([]);
  }

  lemma LeadsOn(env: Env, s: System, t: System, a: Action, u: System)
    requires Leads(env, s, t) && Next(env, t, a) == Some(u) && !a.Unlink?
    ensures Leads(env, s, u)
  {
    hide Next, Run;
    var actions :| NoUnlink(actions) && Run(env, s, actions) == t;
    RunOnce(env, s, actions, a);
    assert NoUnlink(actions + [a]);
  }

  // ---------------------------------------------------------------- one step of one instance

  /** A step of instance id that leaves the file and the other instances alone. */
  ghost predicate Moved(t: System, u: System, id: nat, phase: Phase) {
    && id in t.instances && u.file == t.file && u.alive == t.alive && |u.attempts| >= |t.attempts|
    && u.instances == t.instances[id := t.instances[id].(phase := phase)]
  }

  lemma Creates(env: Env, s: System, t: System, id: nat) returns (u: System)
    requires Leads(env, s, t) && id in t.instances && t.instances[id].phase == Idle && t.lock == Free
    ensures Leads(env, s, u) && Moved(t, u, id, Creating)
  {
    hide Leads;
    u := Next(env, t, CreateLock(id)).value;
    LeadsOn(env, s, t, CreateLock(id), u);
  }

  lemma Releases(env: Env, s: System, t: System, id: nat) returns (u: System)
    requires Leads(env, s, t) && id in t.instances && t.instances[id].phase == Releasing
    ensures Leads(env, s, u) && Moved(t, u, id, Idle) && u.lock == Free
  {
    hide Leads;
    u := Next(env, t, Release(id, true)).value;
    LeadsOn(env, s, t, Release(id, true), u);
  }

  lemma WritesPid(env: Env, s: System, t: System, id: nat) returns (u: System)
    requires Leads(env, s, t) && id in t.instances && t.instances[id].phase == Creating
    ensures Leads(env, s, u) && Moved(t, u, id, Locked) && (t.lock == Free ==> u.lock == Free)
  {
    hide Leads;
    u := Next(env, t, WritePid(id)).value;
    LeadsOn(env, s, t, WritePid(id), u);
  }

  const SomeEvent := DomainEvent("", "", "")

  function OneBatch(env: Env, cursor: Cursor): seq<Stored> {
    CursorBatch(env.scheme, cursor, "x", [SomeEvent], "")
  }

  function BegunPhase(env: Env, t: System, i: Instance): Phase {
    if AdvancedExternally(t.file, i.cursor.knownSize) then Releasing
    else if i.cursor.needsNewline then Repairing(OneBatch(env, i.cursor))
    else Writing(OneBatch(env, i.cursor), 0)
  }

  lemma Begins(env: Env, s: System, t: System, id: nat) returns (u: System)
    requires Leads(env, s, t) && id in t.instances && t.instances[id].phase == Locked
    ensures Leads(env, s, u) && Moved(t, u, id, BegunPhase(env, t, t.instances[id])) && u.lock == t.lock
    ensures !AdvancedExternally(t.file, t.instances[id].cursor.knownSize) ==> u.attempts != []
  {
    hide Leads, CursorBatch;
    var begin := Begin(id, "x", [SomeEvent], "");
    u := Next(env, t, begin).value;
    LeadsOn(env, s, t, begin, u);
  }

  lemma Fails(env: Env, s: System, t: System, id: nat) returns (u: System)
    requires Leads(env, s, t) && id in t.instances
    requires var p := t.instances[id].phase; p.Repairing? || p.Repaired? || p.Writing?
    ensures Leads(env, s, u) && Moved(t, u, id, Releasing) && u.lock == t.lock
  {
    hide Leads;
    u := Next(env, t, FailWrite(id)).value;
    LeadsOn(env, s, t, FailWrite(id), u);
  }

  /** An instance inside append can always give up without growing the file. */
  lemma GivesUp(env: Env, s: System, j: nat) returns (t: System)
    requires s.lock == Free && j in s.instances && Inside(s.instances[j].phase)
    ensures Leads(env, s, t) && Moved(s, t, j, Releasing) && t.lock == Free
  {
    hide Leads, OneBatch, AdvancedExternally;
    t := s;
    LeadsNowhere(env, s);
    if t.instances[j].phase.Creating? {
      t := WritesPid(env, s, t, j);
    }
    if t.instances[j].phase.Locked? {
      t := Begins(env, s, t, j);
    }
    if t.instances[j].phase != Releasing {
      t := Fails(env, s, t, j);
    }
  }

  // ---------------------------------------------------------------- two instances that see the same file

  /** A new process opens the file. */
  lemma Joins(env: Env, s: System, t: System, id: nat, pid: nat) returns (u: System)
    requires Leads(env, s, t) && pid !in t.alive && id !in t.instances
    requires AllFaults(env.scheme, Load(env.codec, t.file).log) == []
    ensures Leads(env, s, u) && u.file == t.file && u.lock == t.lock && u.attempts == t.attempts && u.alive == t.alive + {pid}
    ensures u.instances == t.instances[id := Instance(pid, Load(env.codec, t.file), Idle, Text(t.file))]
  {
    hide Leads, Load, AllFaults;
    var v := Next(env, t, StartProcess(pid)).value;
    LeadsOn(env, s, t, StartProcess(pid), v);
    u := Next(env, v, Open(id, pid)).value;
    LeadsOn(env, s, v, Open(id, pid), u);
  }

  lemma {:induction false} AboveAll(xs: set<nat>) returns (n: nat)
    ensures forall x :: x in xs ==> x < n
  {
    if xs == {} {
      n := 0;
    } else {
      var x :| x in xs;
      var m := AboveAll(xs - {x});
      n := if m > x then m else x + 1;
      forall y | y in xs
        ensures y < n
      {
        assert y == x || y in xs - {x};
      }
    }
  }

  /** Two instances of two new processes that have loaded the same file. */
  ghost predicate Twins(env: Env, s: System, t: System, a: nat, b: nat, phase: Phase) {
    && a != b && a in t.instances && b in t.instances && t.file == s.file && t.instances[a].pid != t.instances[b].pid
    && t.instances[a].cursor == Load(env.codec, s.file) && t.instances[a].phase == phase
    && t.instances[b].cursor == Load(env.codec, s.file) && t.instances[b].phase == phase
  }

  lemma TwinsOpen(env: Env, s: System, t: System) returns (u: System, a: nat, b: nat)
    requires Leads(env, s, t) && t.file == s.file && AllFaults(env.scheme, Load(env.codec, s.file).log) == []
    ensures Leads(env, s, u) && Twins(env, s, u, a, b, Idle) && u.lock == t.lock
    ensures a !in t.instances && b !in t.instances && forall j :: j in t.instances ==> j in u.instances && u.instances[j] == t.instances[j]
  {
    hide Leads, Load, AllFaults;
    a := AboveAll(t.instances.Keys);
    b := a + 1;
    var pid := AboveAll(t.alive);
    u := Joins(env, s, t, a, pid);
    u := Joins(env, s, u, b, pid + 1);
  }

  /** Both get inside append: the second creates the lockfile after j's release has removed the first one's. */
  lemma TwinsEnter(env: Env, s: System, t: System, a: nat, b: nat, j: nat) returns (u: System)
    requires Leads(env, s, t) && Twins(env, s, t, a, b, Idle) && t.lock == Free
    requires j in t.instances && j != a && j != b && t.instances[j].phase == Releasing
    ensures Leads(env, s, u) && Twins(env, s, u, a, b, Locked)
  {
    hide Leads, Load;
    u := Creates(env, s, t, a);
    u := Releases(env, s, u, j);
    u := Creates(env, s, u, b);
    u := WritesPid(env, s, u, a);
    u := WritesPid(env, s, u, b);
  }

  lemma LoadedIsCurrent(c: Codec, file: Option<string>)
    ensures !AdvancedExternally(file, Load(c, file).knownSize)
  {
    hide Events;
  }

  function StartPhase(env: Env, cursor: Cursor): Phase {
    if cursor.needsNewline then Repairing(OneBatch(env, cursor)) else Writing(OneBatch(env, cursor), 0)
  }

  /** Both pass the size check before either writes. */
  lemma TwinsBegin(env: Env, s: System, t: System, a: nat, b: nat) returns (u: System)
    requires Leads(env, s, t) && Twins(env, s, t, a, b, Locked)
    ensures Leads(env, s, u) && Twins(env, s, u, a, b, StartPhase(env, Load(env.codec, s.file))) && u.attempts != []
  {
    hide Leads, Load, OneBatch, AdvancedExternally;
    LoadedIsCurrent(env.codec, s.file);
    u := Begins(env, s, t, a);
    u := Begins(env, s, u, b);
  }

  // ---------------------------------------------------------------- both write

  /** One instance has appended data to the file; its remembered log is as before. */
  ghost predicate Appended(t: System, u: System, id: nat, data: string, phase: Phase) {
    && id in t.instances && id in u.instances && u.file == AppendText(t.file, data) && |u.attempts| >= |t.attempts|
    && u.instances == t.instances[id := u.instances[id]] && u.instances[id].phase == phase
    && u.instances[id].cursor.log == t.instances[id].cursor.log
  }

  lemma Repairs(env: Env, s: System, t: System, id: nat, batch: seq<Stored>) returns (u: System)
    requires Leads(env, s, t) && id in t.instances && t.instances[id].phase == Repairing(batch)
    ensures Leads(env, s, u) && Appended(t, u, id, "\n", Writing(batch, 0))
  {
    hide Leads;
    var v := Next(env, t, WriteNewline(id)).value;
    LeadsOn(env, s, t, WriteNewline(id), v);
    u := Next(env, v, CommitNewline(id)).value;
    LeadsOn(env, s, v, CommitNewline(id), u);
  }

  lemma WritesAll(env: Env, s: System, t: System, id: nat, batch: seq<Stored>) returns (u: System)
    requires Leads(env, s, t) && id in t.instances && t.instances[id].phase == Writing(batch, 0)
    ensures Leads(env, s, u) && Appended(t, u, id, Encoded(env.codec, batch), Writing(batch, |Encoded(env.codec, batch)|))
  {
    hide Leads, Encoded;
    var size := |Encoded(env.codec, batch)|;
    assert Encoded(env.codec, batch)[0..0 + size] == Encoded(env.codec, batch);
    u := Next(env, t, WriteChunk(id, size)).value;
    LeadsOn(env, s, t, WriteChunk(id, size), u);
  }

  /** The append returns: its records are in the remembered log. */
  lemma Commits(env: Env, s: System, t: System, id: nat, batch: seq<Stored>) returns (u: System)
    requires Leads(env, s, t) && id in t.instances && t.attempts != []
    requires t.instances[id].phase == Writing(batch, |Encoded(env.codec, batch)|)
    ensures Leads(env, s, u) && id in u.instances && u.file == t.file && u.attempts != []
    ensures u.instances == t.instances[id := u.instances[id]] && u.instances[id].phase == Releasing
    ensures u.instances[id].cursor.log == t.instances[id].cursor.log + batch
  {
    hide Leads, Encoded;
    u := Next(env, t, Commit(id)).value;
    LeadsOn(env, s, t, Commit(id), u);
  }

  /** Both appends have returned. */
  ghost predicate BothReturned(t: System, a: nat, b: nat, log: seq<Stored>) {
    && a != b && a in t.instances && b in t.instances
    && t.instances[a].phase == Releasing && t.instances[a].cursor.log == log
    && t.instances[b].phase == Releasing && t.instances[b].cursor.log == log
  }

  function Base(file: Option<string>, torn: bool): string {
    if torn then Text(file) + "\n" + "\n" else Text(file)
  }

  lemma TwinsRepair(env: Env, s: System, t: System, a: nat, b: nat, cursor: Cursor) returns (u: System)
    requires Leads(env, s, t) && cursor == Load(env.codec, s.file) && Twins(env, s, t, a, b, StartPhase(env, cursor)) && t.attempts != []
    ensures Leads(env, s, u) && a != b && a in u.instances && b in u.instances && u.attempts != []
    ensures Text(u.file) == Base(s.file, cursor.needsNewline)
    ensures u.instances[a].phase == u.instances[b].phase == Writing(OneBatch(env, cursor), 0)
    ensures u.instances[a].cursor.log == u.instances[b].cursor.log == cursor.log
  {
    hide Leads, Load, OneBatch;
    u := t;
    if cursor.needsNewline {
      u := Repairs(env, s, u, a, OneBatch(env, cursor));
      u := Repairs(env, s, u, b, OneBatch(env, cursor));
    }
  }

  lemma TwinsWrite(env: Env, s: System, t: System, a: nat, b: nat, log: seq<Stored>, batch: seq<Stored>) returns (u: System)
    requires Leads(env, s, t) && a != b && a in t.instances && b in t.instances && t.attempts != []
    requires t.instances[a].phase == t.instances[b].phase == Writing(batch, 0)
    requires t.instances[a].cursor.log == t.instances[b].cursor.log == log
    ensures Leads(env, s, u) && BothReturned(u, a, b, log + batch)
    ensures Text(u.file) == Text(t.file) + Encoded(env.codec, batch) + Encoded(env.codec, batch)
  {
    hide Leads, Encoded;
    u := WritesAll(env, s, t, a, batch);
    u := WritesAll(env, s, u, b, batch);
    u := Commits(env, s, u, a, batch);
    u := Commits(env, s, u, b, batch);
  }

  // ---------------------------------------------------------------- the forked log

  lemma BatchTwice(env: Env, file: Option<string>)
    requires LawfulCodec(env.codec) && GoodLog(env.scheme, Events(env.codec, Text(file)))
    ensures var cursor, log := Load(env.codec, file), Events(env.codec, Text(file));
            var batch := OneBatch(env, cursor);
            var text := Encoded(env.codec, batch);
            && cursor.log == log && |batch| == 1 && batch[0].content.globalPosition == |log| + 1
            && Events(env.codec, Base(file, cursor.needsNewline) + text + text) == log + batch + batch
  {
    hide Events, GoodLog, LawfulCodec, Encoded;
    var cursor := Load(env.codec, file);
    var batch, base := OneBatch(env, cursor), Base(file, cursor.needsNewline);
    var text := Encoded(env.codec, batch);
    LoadGood(env.scheme, env.codec, file);
    NoEvents(env.codec);
    NewlineKeepsEvents(env.codec, Text(file));
    NewlineKeepsEvents(env.codec, Text(file) + "\n");
    assert AtLineStart(base) && Events(env.codec, base) == cursor.log;
    EventsAppended(env.codec, base, batch);
    EncodedAtLineStart(env.codec, batch);
    SomeText(env.codec, batch);
    EventsAppended(env.codec, base + text, batch);
  }

  /** A log in which a record stands twice in a row is neither good nor accepted. */
  lemma TwiceIsRefused(scheme: Scheme, log: seq<Stored>, batch: seq<Stored>)
    requires |batch| == 1 && batch[0].content.globalPosition == |log| + 1
    ensures !GoodLog(scheme, log + batch + batch) && !Verified(scheme, PreserveAll(log + batch + batch))
  {
    var all, n := log + batch + batch, |log| + 1;
    assert all[n] == batch[0] && all[..n][n - 1] == batch[0];
    assert !GoodNext(scheme, all[..n], all[n]);
    var kept := PreserveAll(all);
    assert kept[n].content == all[n].content && kept[..n][n - 1].content == all[n - 1].content;
    assert !Continues(scheme, kept[..n], kept[n]);
  }

  /** Nobody can open the file any more. */
  ghost predicate Unopenable(env: Env, t: System) {
    forall id, pid :: Next(env, t, Open(id, pid)) == None
  }

  lemma RefusedOpen(env: Env, t: System)
    requires !Verified(env.scheme, PreserveAll(Log(env, t))) && t.file.Some?
    ensures Unopenable(env, t)
  {
    hide AllFaults, Events, Verified, PreserveAll;
    AcceptsExactly(env.scheme, Load(env.codec, t.file).log);
  }

  /** The lockfile gone while j is inside append, two more processes can append the same position at the same
      time: both appends return, the log is forked and the file can no longer be opened. */
  lemma Forks(env: Env, s: System, j: nat) returns (t: System, a: nat, b: nat)
    requires LawfulCodec(env.codec) && GoodLog(env.scheme, Log(env, s)) && s.lock == Free && j in s.instances && Inside(s.instances[j].phase)
    ensures Leads(env, s, t) && !GoodLog(env.scheme, Log(env, t)) && Unopenable(env, t)
    ensures exists batch :: |batch| == 1 && Log(env, t) == Log(env, s) + batch + batch && BothReturned(t, a, b, Log(env, s) + batch)
  {
    hide LawfulCodec, GoodLog, Events, Leads, Load, AllFaults, Verified, OneBatch, Encoded, PreserveAll, Next, Base;
    LoadGood(env.scheme, env.codec, s.file);
    GoodLogVerified(env.scheme, Log(env, s));
    AcceptsExactly(env.scheme, Log(env, s));
    var cursor := Load(env.codec, s.file);
    var batch := OneBatch(env, cursor);
    t := GivesUp(env, s, j);
    t, a, b := TwinsOpen(env, s, t);
    t := TwinsEnter(env, s, t, a, b, j);
    t := TwinsBegin(env, s, t, a, b);
    t := TwinsRepair(env, s, t, a, b, cursor);
    t := TwinsWrite(env, s, t, a, b, cursor.log, batch);
    BatchTwice(env, s.file);
    TwiceIsRefused(env.scheme, Log(env, s), batch);
    SomeFile(env, t);
    RefusedOpen(env, t);
  }

  lemma SomeFile(env: Env, t: System)
    requires LawfulCodec(env.codec) && Log(env, t) != []
    ensures t.file.Some?
  {
    hide LawfulCodec, Events;
    NoEvents(env.codec);
  }

  /** Removing a lockfile as stale keeps the log unforked in every continuation if and only if nobody is inside
      append at that moment. */
  lemma RemovalKeepsLogExactly(env: Env, file: Option<string>, lock: Lock, actions: seq<Action>, id: nat)
    requires LawfulCodec(env.codec) && GoodLog(env.scheme, Events(env.codec, Text(file))) && CleanRun(env, Start(file, lock), actions)
    requires var s := Run(env, Start(file, lock), actions); id in s.instances && s.instances[id].phase.Breaking?
    ensures var s := Run(env, Start(file, lock), actions);
            var t := Run(env, s, [Unlink(id, true)]);
            (forall more :: CleanRun(env, t, more) ==> GoodLog(env.scheme, Log(env, Run(env, t, more)))) <==> NobodyInside(s.instances)
  {
    hide LawfulCodec, GoodLog, Events, Inv, Next, NobodyInside, Run, CleanRun;
    var s, initial := Run(env, Start(file, lock), actions), Events(env.codec, Text(file));
    var t := Run(env, s, [Unlink(id, true)]);
    ReachableInv(env, file, lock, actions);
    if NobodyInside(s.instances) {
      UnlinkIsClean(env, s, id);
      RunKeepsInv(env, initial, s, [Unlink(id, true)]);
      forall more | CleanRun(env, t, more)
        ensures GoodLog(env.scheme, Log(env, Run(env, t, more)))
      {
        RunKeepsInv(env, initial, t, more);
        InvIsGood(env, initial, Run(env, t, more));
      }
    } else {
      InvIsGood(env, initial, s);
      var j := AfterUnlink(env, s, id);
      var u, _, _ := Forks(env, t, j);
      var more :| NoUnlink(more) && Run(env, t, more) == u;
      NoUnlinkIsClean(env, t, more);
    }
  }

  lemma InvIsGood(env: Env, initial: seq<Stored>, s: System)
    requires Inv(env, initial, s)
    ensures GoodLog(env.scheme, Log(env, s))
  {
    hide InstanceOk, GoodLog;
  }

  lemma UnlinkIsClean(env: Env, s: System, id: nat)
    requires NobodyInside(s.instances)
    ensures CleanRun(env, s, [Unlink(id, true)])
  {
    hide Next;
    assert [Unlink(id, true)][..0] == [];
    assert CleanRun(env, s, []) && Run(env, s, []) == s;
  }

  lemma AfterUnlink(env: Env, s: System, id: nat) returns (j: nat)
    requires id in s.instances && s.instances[id].phase.Breaking? && !NobodyInside(s.instances)
    ensures var t := Run(env, s, [Unlink(id, true)]);
            t.lock == Free && t.file == s.file && j in t.instances && Inside(t.instances[j].phase)
  {
    j :| j in s.instances && Inside(s.instances[j].phase);
    RunOnce(env, s, [], Unlink(id, true));
    assert [] + [Unlink(id, true)] == [Unlink(id, true)];
    RunNothing(env, s);
    assert j != id;
  }

  /** The race of two breakers, up to the second one's unlink. */
  const Race: seq<Action> := TwoBreakers[..|TwoBreakers| - 1]

  lemma LoserUnlinks(env: Env, s: System, i: Instance, j: Instance)
    requires s.instances == map[1 := i.(phase := Idle), 2 := j.(phase := Breaking(9))] && s.lock == Free
    ensures Run(env, s, [CreateLock(1), Unlink(2, true)])
         == s.(lock := Free, instances := map[1 := i.(phase := Creating), 2 := j.(phase := Idle)])
  {
    var s1 := s.(lock := Held(i.pid, false), instances := map[1 := i.(phase := Creating), 2 := j.(phase := Breaking(9))]);
    var s2 := s.(lock := Free, instances := map[1 := i.(phase := Creating), 2 := j.(phase := Idle)]);
    assert s.instances[1 := i.(phase := Creating)] == s1.instances && s1.instances[2 := j.(phase := Idle)] == s2.instances;
    RunNothing(env, s);
    RunOnce(env, s, [], CreateLock(1));
    RunOnce(env, s, [CreateLock(1)], Unlink(2, true));
    assert [] + [CreateLock(1)] == [CreateLock(1)] && [CreateLock(1)] + [Unlink(2, true)] == [CreateLock(1), Unlink(2, true)];
    assert Next(env, s, CreateLock(1)) == Some(s1) && Next(env, s1, Unlink(2, true)) == Some(s2);
  }

  lemma RaceState(env: Env, file: Option<string>)
    requires LawfulCodec(env.codec) && GoodLog(env.scheme, Events(env.codec, Text(file)))
    ensures var s := Run(env, Start(file, Held(9, true)), Race);
            s.lock == Free && s.file == file && 1 in s.instances && s.instances[1].phase == Creating
  {
    hide LawfulCodec, GoodLog, Events, Load, AllFaults, Run, Next;
    var start := Start(file, Held(9, true));
    var i := Instance(1, Load(env.codec, file), Idle, Text(file));
    var j := i.(pid := 2);
    LoadGood(env.scheme, env.codec, file);
    GoodLogVerified(env.scheme, i.cursor.log);
    AcceptsExactly(env.scheme, i.cursor.log);
    BothOpen(env, file, i, j);
    BothSuspect(env, file, i, j);
    var suspected := System(file, Held(9, true), {1, 2}, map[1 := i.(phase := Suspecting(9)), 2 := j.(phase := Suspecting(9))], []);
    FirstRemoves(env, suspected, i, j);
    LoserUnlinks(env, suspected.(lock := Free, instances := map[1 := i.(phase := Idle), 2 := j.(phase := Breaking(9))]), i, j);
    var a, b := [StartProcess(1), StartProcess(2), Open(1, 1)], [Open(2, 2), ReadPid(1), ReadPid(2)];
    var c, d := [Probe(1), Probe(2), Unlink(1, true)], [CreateLock(1), Unlink(2, true)];
    RunConcat(env, start, a, b);
    RunConcat(env, start, a + b, c);
    RunConcat(env, start, a + b + c, d);
    assert Race == a + b + c + d;
  }

  /** So a lockfile left by a dead process is enough: on any sound file the race of two breakers has a
      continuation in which two appends return the same position, the log is forked and no store can open the
      file again. */
  lemma RaceForks(env: Env, file: Option<string>) returns (more: seq<Action>)
    requires LawfulCodec(env.codec) && GoodLog(env.scheme, Events(env.codec, Text(file)))
    ensures var t := Run(env, Start(file, Held(9, true)), Race + more);
            !GoodLog(env.scheme, Log(env, t)) && Unopenable(env, t)
    ensures var t := Run(env, Start(file, Held(9, true)), Race + more);
            exists batch, a, b :: |batch| == 1 && Log(env, t) == Events(env.codec, Text(file)) + batch + batch
                                  && BothReturned(t, a, b, Events(env.codec, Text(file)) + batch)
  {
    hide LawfulCodec, GoodLog, Events, Run, Next, Race, Unopenable;
    var start := Start(file, Held(9, true));
    RaceState(env, file);
    var s := Run(env, start, Race);
    var t, a, b := Forks(env, s, 1);
    more :| NoUnlink(more) && Run(env, s, more) == t;
    RunConcat(env, start, Race, more);
  }
}
