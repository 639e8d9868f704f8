/** Snapshots of a registrar and restoring from them (packages/registrum/src/structural-registrar.ts,
    packages/registrum/src/persistence/rehydrator.ts, packages/registrum/src/persistence/snapshot.ts). */
module RegistrarSnapshots {
  import opened Wrappers
  import opened Decimal
  import opened RegistrarModel
  import opened RegistrarRuns

  datatype Snapshot = Snapshot(
    version: string, hash: string, mode: Mode, stateIds: seq<string>, lineage: map<string, Option<string>>,
    maxIndex: int, indices: map<string, int>)

  datatype RestoreError = SnapshotInvalid | ModeMismatch | RegistryDrift

  const SNAPSHOT_VERSION := "1.0"

  // ---------------------------------------------------------------- taking a snapshot

  /** The first ancestor with another id, through earlier versions of the same id. */
  function CrossParent(h: History, id: string, key: string): Option<string>
    requires ValidHistory(h) && key in h.versions
    decreases h.versions[key].orderIndex
  {
    var v := h.versions[key];
    assert VersionOk(h, key);
    if v.parentId.Some? && v.parentId.value != id then v.parentId
    else if v.parentId == None then None
    else if v.parentKey.Some? then CrossParent(h, id, v.parentKey.value)
    else None
  }

  function ParentOf(h: History, id: string): Option<string>
    requires ValidHistory(h) && id in h.latest
  {
    assert LatestOk(h, id);
    CrossParent(h, id, h.latest[id].versionKey)
  }

  /** The keys of a map in increasing order of their values. */
  ghost predicate SortedKeys(ids: seq<string>, indices: map<string, int>) {
    && (forall id :: id in ids <==> id in indices)
    && (forall j, k :: 0 <= j < k < |ids| ==> indices[ids[j]] < indices[ids[k]])
  }

  function LineageMap(h: History): map<string, Option<string>>
    requires ValidHistory(h)
  {
    map id | id in h.latest :: ParentOf(h, id)
  }

  function IndexMap(h: History): map<string, int> {
    map id | id in h.latest :: h.latest[id].orderIndex
  }

  /** What snapshot() returns for a history; the ids are sorted by index, which fixes their order. */
  ghost predicate Depicts(snap: Snapshot, c: Config, h: History) {
    && ValidHistory(h)
    && snap.version == SNAPSHOT_VERSION && snap.hash == c.hash && snap.mode == c.mode
    && SortedKeys(snap.stateIds, snap.indices)
    && snap.lineage == LineageMap(h) && snap.maxIndex == h.next - 1 && snap.indices == IndexMap(h)
  }

  lemma SortedMemberOrder(ids: seq<string>, indices: map<string, int>, j: nat, k: nat)
    requires SortedKeys(ids, indices) && j < |ids| && k < |ids|
    ensures j < k <==> indices[ids[j]] < indices[ids[k]]
    ensures j == k <==> ids[j] == ids[k]
  {
    if k < j {
      assert indices[ids[k]] < indices[ids[j]];
    }
  }

  lemma NoKeys(ids: seq<string>, indices: map<string, int>)
    requires SortedKeys(ids, indices)
    ensures ids == [] <==> indices == map[]
  {
    if ids != [] {
      assert ids[0] in ids;
    }
    if indices != map[] {
      var id :| id in indices;
      assert id in ids;
    }
  }

  /** The last key has the greatest value, and no other key has it. */
  lemma LastIsGreatest(ids: seq<string>, indices: map<string, int>, id: string)
    requires ids != [] && SortedKeys(ids, indices) && id in indices
    ensures ids[|ids| - 1] in indices && indices[id] <= indices[ids[|ids| - 1]]
    ensures indices[id] == indices[ids[|ids| - 1]] ==> id == ids[|ids| - 1]
  {
    assert id in ids && ids[|ids| - 1] in ids;
    var i :| 0 <= i < |ids| && ids[i] == id;
    SortedMemberOrder(ids, indices, i, |ids| - 1);
  }

  lemma {:induction false} SortedKeysUnique(a: seq<string>, b: seq<string>, indices: map<string, int>)
    requires SortedKeys(a, indices) && SortedKeys(b, indices)
    ensures a == b
    decreases |a|
  {
    hide SortedKeys;
    NoKeys(a, indices);
    NoKeys(b, indices);
    if a != [] {
      var m, n := |a| - 1, |b| - 1;
      var any :| any in indices;
      LastIsGreatest(a, indices, any);
      LastIsGreatest(b, indices, a[m]);
      LastIsGreatest(a, indices, b[n]);
      DropLast(a, indices);
      DropLast(b, indices);
      SortedKeysUnique(a[..m], b[..n], indices - {a[m]});
      assert a == a[..m] + [a[m]] && b == b[..n] + [b[n]];
    }
  }

  lemma DropLast(ids: seq<string>, indices: map<string, int>)
    requires ids != [] && SortedKeys(ids, indices)
    ensures SortedKeys(ids[..|ids| - 1], indices - {ids[|ids| - 1]})
  {
    var m := |ids| - 1;
    forall id | id in indices && id != ids[m]
      ensures id in ids[..m]
    {
      assert id in ids;
      var j :| 0 <= j < |ids| && ids[j] == id;
      assert ids[..m][j] == id;
    }
    LastDiffers(ids, indices);
  }

  lemma LastDiffers(ids: seq<string>, indices: map<string, int>)
    requires ids != [] && SortedKeys(ids, indices)
    ensures forall j :: 0 <= j < |ids| - 1 ==> ids[j] != ids[|ids| - 1] && ids[j] in indices
  {
    forall j | 0 <= j < |ids| - 1
      ensures ids[j] != ids[|ids| - 1] && ids[j] in indices
    {
      assert ids[j] in ids;
      SortedMemberOrder(ids, indices, j, |ids| - 1);
    }
  }

  // ---------------------------------------------------------------- restoring

  /** Whether a parent walk reaches a root without meeting an id twice. */
  predicate ReachesRoot(lineage: map<string, Option<string>>, cursor: Option<string>, seen: set<string>)
    decreases |lineage.Keys - seen|
  {
    match cursor
    case None => true
    case Some(id) =>
      if id in seen || id !in lineage then false
      else
        assert lineage.Keys - (seen + {id}) < lineage.Keys - seen by {
          assert id in lineage.Keys - seen && id !in lineage.Keys - (seen + {id});
        }
        SmallerSet(lineage.Keys - (seen + {id}), lineage.Keys - seen);
        ReachesRoot(lineage, lineage[id], seen + {id})
  }

  lemma {:induction false} SmallerSet(a: set<string>, b: set<string>)
    requires a < b
    ensures |a| < |b|
  {
    var x :| x in b && x !in a;
    if a != {} {
      var y :| y in a;
      assert a - {y} < b - {y} by { assert x in b - {y} && x !in a - {y}; }
      SmallerSet(a - {y}, b - {y});
    }
  }

  /** validateSnapshotConsistency, in its order. */
  predicate Consistent(snap: Snapshot) {
    && (forall id :: id in snap.stateIds ==> id in snap.lineage)
    && (forall id :: id in snap.lineage ==> id in snap.stateIds)
    && (forall id :: id in snap.lineage && snap.lineage[id].Some? ==> snap.lineage[id].value in snap.stateIds)
    && (forall id :: id in snap.stateIds ==> ReachesRoot(snap.lineage, Some(id), {}))
    && (forall id :: id in snap.stateIds ==> id in snap.indices)
    && (forall id :: id in snap.indices ==> id in snap.stateIds)
    && (if snap.stateIds == [] then snap.maxIndex == -1
        else (exists id :: id in snap.indices && snap.indices[id] == snap.maxIndex)
             && forall id :: id in snap.indices ==> snap.indices[id] <= snap.maxIndex)
    && (forall i, j :: i in snap.indices && j in snap.indices && snap.indices[i] == snap.indices[j] ==> i == j)
    && (forall id :: id in snap.indices ==> snap.indices[id] >= 0)
  }

  /** A state with an entry in both maps. */
  predicate Entered(snap: Snapshot, id: string) {
    id in snap.lineage && id in snap.indices && snap.indices[id] >= 0
  }

  function RestoredVersion(snap: Snapshot, id: string): Version
    requires Entered(snap, id)
  {
    Version(id, snap.lineage[id], snap.indices[id], MakeVersionKey(id, snap.indices[id]), None)
  }

  /** injectRehydratedState: only the frontier, with no links among versions. */
  function Injected(snap: Snapshot): History
    requires Consistent(snap)
  {
    History(Versions(snap, snap.stateIds), Frontier(snap, snap.stateIds), snap.maxIndex + 1)
  }

  function Frontier(snap: Snapshot, ids: seq<string>): map<string, Version>
    requires forall id :: id in ids ==> Entered(snap, id)
  {
    map id | id in ids :: RestoredVersion(snap, id)
  }

  function Versions(snap: Snapshot, ids: seq<string>): map<string, Version>
    requires forall id :: id in ids ==> Entered(snap, id)
  {
    if ids == [] then map[]
    else
      var v := RestoredVersion(snap, ids[|ids| - 1]);
      assert forall id :: id in ids[..|ids| - 1] ==> id in ids;
      Versions(snap, ids[..|ids| - 1])[v.versionKey := v]
  }

  /** fromSnapshot: validation, mode and fingerprint checks, then injection. */
  function Restore(c: Config, snap: Snapshot): Result<History, RestoreError> {
    if snap.version != SNAPSHOT_VERSION || snap.hash == "" || !Consistent(snap) then Err(SnapshotInvalid)
    else if snap.mode != c.mode then Err(ModeMismatch)
    else if snap.hash != c.hash then Err(RegistryDrift)
    else Ok(Injected(snap))
  }

  lemma {:induction false} VersionsAre(snap: Snapshot, ids: seq<string>)
    requires forall id :: id in ids ==> Entered(snap, id)
    ensures forall id :: id in ids ==> Entered(snap, id) && MakeVersionKey(id, snap.indices[id]) in Versions(snap, ids)
  {
    hide MakeVersionKey;
    if ids != [] {
      assert forall id :: id in ids <==> id in ids[..|ids| - 1] || id == ids[|ids| - 1];
      VersionsAre(snap, ids[..|ids| - 1]);
    }
  }

  /** Which state a restored version is of. */
  lemma {:induction false} VersionOrigin(snap: Snapshot, ids: seq<string>, key: string) returns (id: string)
    requires (forall id :: id in ids ==> Entered(snap, id)) && key in Versions(snap, ids)
    ensures id in ids && Entered(snap, id) && Versions(snap, ids)[key] == RestoredVersion(snap, id) && key == MakeVersionKey(id, snap.indices[id])
  {
    hide MakeVersionKey;
    var n := |ids| - 1;
    assert forall id :: id in ids <==> id in ids[..n] || id == ids[n];
    if key == RestoredVersion(snap, ids[n]).versionKey {
      id := ids[n];
    } else {
      id := VersionOrigin(snap, ids[..n], key);
    }
  }

  // ---------------------------------------------------------------- a restored registrar

  /** What consistency says of one state. */
  lemma StateEntered(snap: Snapshot, id: string)
    requires Consistent(snap) && id in snap.stateIds
    ensures Entered(snap, id) && snap.indices[id] <= snap.maxIndex && snap.maxIndex >= 0
  {
    hide ReachesRoot;
  }

  lemma AllEntered(snap: Snapshot)
    requires Consistent(snap)
    ensures forall id :: id in snap.stateIds ==> Entered(snap, id)
  {
    hide ReachesRoot;
  }

  lemma InjectedAt(snap: Snapshot, id: string)
    requires Consistent(snap) && id in snap.stateIds
    ensures Entered(snap, id) && MakeVersionKey(id, snap.indices[id]) in Injected(snap).versions
    ensures Injected(snap).versions[MakeVersionKey(id, snap.indices[id])] == RestoredVersion(snap, id)
  {
    hide Consistent, Versions;
    StateEntered(snap, id);
    AllEntered(snap);
    VersionsAre(snap, snap.stateIds);
    var key := MakeVersionKey(id, snap.indices[id]);
    var other := VersionOrigin(snap, snap.stateIds, key);
    TaggedNumberInjective(id, snap.indices[id], other, snap.indices[other], '#');
  }

  lemma InjectedVersionOk(snap: Snapshot, key: string)
    requires Consistent(snap) && key in Injected(snap).versions
    ensures VersionOk(Injected(snap), key)
  {
    hide Consistent, Versions, MakeVersionKey;
    AllEntered(snap);
    var id := VersionOrigin(snap, snap.stateIds, key);
    StateEntered(snap, id);
  }

  lemma InjectedIndexUnique(snap: Snapshot)
    requires Consistent(snap)
    ensures OneVersionPerIndex(Injected(snap))
  {
    hide ReachesRoot, Versions, MakeVersionKey;
    AllEntered(snap);
    var h := Injected(snap);
    forall j, k | j in h.versions && k in h.versions && h.versions[j].orderIndex == h.versions[k].orderIndex
      ensures j == k
    {
      var a := VersionOrigin(snap, snap.stateIds, j);
      var b := VersionOrigin(snap, snap.stateIds, k);
    }
  }

  lemma InjectedTop(snap: Snapshot)
    requires Consistent(snap)
    ensures var h := Injected(snap);
            && (h.next == 0 <==> h.latest == map[])
            && (h.next > 0 ==> exists id :: id in h.latest && h.latest[id].orderIndex == h.next - 1)
  {
    hide ReachesRoot, Versions, MakeVersionKey;
    var h := Injected(snap);
    if snap.stateIds != [] {
      assert snap.stateIds[0] in h.latest;
      StateEntered(snap, snap.stateIds[0]);
      var id :| id in snap.indices && snap.indices[id] == snap.maxIndex;
      assert id in h.latest && h.latest[id].orderIndex == h.next - 1;
    }
  }

  lemma InjectedValid(snap: Snapshot)
    requires Consistent(snap)
    ensures ValidHistory(Injected(snap))
  {
    hide MakeVersionKey, Consistent, VersionOk, OneVersionPerIndex;
    var h := Injected(snap);
    forall k | k in h.versions
      ensures VersionOk(h, k)
    {
      InjectedVersionOk(snap, k);
    }
    forall id | id in h.latest
      ensures LatestOk(h, id)
    {
      InjectedAt(snap, id);
    }
    InjectedIndexUnique(snap);
    InjectedTop(snap);
  }

  /** Two histories that no later transition or snapshot can tell apart. */
  ghost predicate Similar(a: History, b: History)
    requires ValidHistory(a) && ValidHistory(b)
  {
    && a.next == b.next && a.latest.Keys == b.latest.Keys
    && forall id :: id in a.latest ==> a.latest[id].orderIndex == b.latest[id].orderIndex && ParentOf(a, id) == ParentOf(b, id)
  }

  lemma {:induction false} CrossParentDiffers(h: History, id: string, key: string)
    requires ValidHistory(h) && key in h.versions
    ensures CrossParent(h, id, key) != Some(id)
    decreases h.versions[key].orderIndex
  {
    hide ValidHistory;
    assert VersionOk(h, key) by { VersionIsOk(h, key); }
    var v := h.versions[key];
    if v.parentKey.Some? {
      CrossParentDiffers(h, id, v.parentKey.value);
    }
  }

  lemma VersionIsOk(h: History, key: string)
    requires ValidHistory(h) && key in h.versions
    ensures VersionOk(h, key)
  {
  }

  /** Restoring a snapshot gives a history similar to the one it was taken from. */
  lemma RestoredIsSimilar(c: Config, h: History, snap: Snapshot)
    requires Depicts(snap, c, h) && Restore(c, snap).Ok?
    ensures ValidHistory(Restore(c, snap).value) && Similar(h, Restore(c, snap).value)
  {
    hide MakeVersionKey, Consistent, ValidHistory, ParentOf, SortedKeys, Versions;
    var r := Restore(c, snap).value;
    InjectedValid(snap);
    SnapshotKeys(c, h, snap);
    forall id | id in h.latest
      ensures id in r.latest && h.latest[id].orderIndex == r.latest[id].orderIndex && ParentOf(h, id) == ParentOf(r, id)
    {
      RestoredState(c, h, snap, id);
    }
  }

  lemma SnapshotKeys(c: Config, h: History, snap: Snapshot)
    requires Depicts(snap, c, h)
    ensures forall id :: id in snap.stateIds <==> id in h.latest
  {
    hide ValidHistory, ParentOf;
    assert forall id :: id in snap.indices <==> id in h.latest;
  }

  lemma RestoredState(c: Config, h: History, snap: Snapshot, id: string)
    requires Depicts(snap, c, h) && Consistent(snap) && id in h.latest && id in snap.stateIds
    ensures ValidHistory(Injected(snap)) && id in Injected(snap).latest
    ensures h.latest[id].orderIndex == Injected(snap).latest[id].orderIndex && ParentOf(h, id) == ParentOf(Injected(snap), id)
  {
    hide MakeVersionKey, Consistent, ValidHistory, CrossParent, SortedKeys, Versions;
    InjectedValid(snap);
    StateEntered(snap, id);
    LatestIsOk(h, id);
    CrossParentDiffers(h, id, h.latest[id].versionKey);
    assert snap.lineage[id] == ParentOf(h, id);
    RestoredParent(Injected(snap), id, snap.lineage[id]);
  }

  lemma LatestIsOk(h: History, id: string)
    requires ValidHistory(h) && id in h.latest
    ensures LatestOk(h, id)
  {
  }

  lemma RestoredParent(r: History, id: string, parent: Option<string>)
    requires ValidHistory(r) && id in r.latest && r.latest[id].parentKey == None && r.latest[id].parentId == parent && parent != Some(id)
    ensures ParentOf(r, id) == parent
  {
    LatestIsOk(r, id);
  }

  // ---------------------------------------------------------------- the same future

  /** Adding a version changes no existing ancestry. */
  lemma {:induction false} CrossParentStays(h: History, v: Version, id: string, key: string)
    requires ValidHistory(h) && key in h.versions && v.versionKey !in h.versions && ValidHistory(WithVersion(h, v))
    ensures CrossParent(WithVersion(h, v), id, key) == CrossParent(h, id, key)
    decreases h.versions[key].orderIndex
  {
    hide ValidHistory;
    VersionIsOk(h, key);
    VersionIsOk(WithVersion(h, v), key);
    if h.versions[key].parentKey.Some? {
      CrossParentStays(h, v, id, h.versions[key].parentKey.value);
    }
  }

  /** After accepting a transition: the ancestry of the new version, and the others' unchanged. */
  lemma ParentsAfter(h: History, t: Transition)
    requires ValidHistory(h)
    ensures var h' := WithVersion(h, NewVersion(h, t));
            && ValidHistory(h')
            && ParentOf(h', t.to.id) == (if t.from == Some(t.to.id) then if t.to.id in h.latest then ParentOf(h, t.to.id) else None else t.from)
            && forall id :: id in h.latest && id != t.to.id ==> ParentOf(h', id) == ParentOf(h, id)
  {
    hide ValidHistory, MakeVersionKey, VersionOk;
    var v := NewVersion(h, t);
    var h' := WithVersion(h, v);
    AcceptKeepsValid(h, t);
    KeyIsFresh(h, t.to.id);
    if t.to.id in h.latest {
      LatestIsOk(h, t.to.id);
      CrossParentStays(h, v, t.to.id, h.latest[t.to.id].versionKey);
    }
    forall id | id in h.latest && id != t.to.id
      ensures ParentOf(h', id) == ParentOf(h, id)
    {
      LatestIsOk(h, id);
      CrossParentStays(h, v, id, h.latest[id].versionKey);
    }
  }

  /** Similar histories answer every transition alike and stay similar. */
  lemma RegisterKeepsSimilar(c: Config, a: History, b: History, t: Transition)
    requires ValidHistory(a) && ValidHistory(b) && Similar(a, b)
    ensures var (x, a') := Register(c, a, t);
            var (y, b') := Register(c, b, t);
            x == y && ValidHistory(a') && ValidHistory(b') && Similar(a', b')
  {
    hide ValidHistory, ParentOf, Judge, MakeVersionKey;
    RegisterKeepsValid(c, a, t);
    RegisterKeepsValid(c, b, t);
    KeyIsFresh(a, t.to.id);
    KeyIsFresh(b, t.to.id);
    if Register(c, a, t).0.Registered? {
      ParentsAfter(a, t);
      ParentsAfter(b, t);
      var a', b' := WithVersion(a, NewVersion(a, t)), WithVersion(b, NewVersion(b, t));
      forall id | id in a'.latest
        ensures a'.latest[id].orderIndex == b'.latest[id].orderIndex && ParentOf(a', id) == ParentOf(b', id)
      {
        assert id != t.to.id ==> id in a.latest;
      }
    }
  }

  lemma {:induction false} RunKeepsSimilar(c: Config, a: History, b: History, ts: seq<Transition>)
    requires ValidHistory(a) && ValidHistory(b) && Similar(a, b)
    ensures var (xs, a') := Run(c, a, ts);
            var (ys, b') := Run(c, b, ts);
            xs == ys && ValidHistory(a') && ValidHistory(b') && Similar(a', b')
  {
    hide ValidHistory, Similar, Register;
    if ts != [] {
      var n := |ts| - 1;
      RunKeepsSimilar(c, a, b, ts[..n]);
      RegisterKeepsSimilar(c, Run(c, a, ts[..n]).1, Run(c, b, ts[..n]).1, ts[n]);
    }
  }

  lemma SimilarSnapshots(c: Config, a: History, b: History, s: Snapshot, t: Snapshot)
    requires ValidHistory(a) && ValidHistory(b) && Similar(a, b) && Depicts(s, c, a) && Depicts(t, c, b)
    ensures s == t
  {
    hide ValidHistory, ParentOf;
    assert LineageMap(a) == LineageMap(b) && IndexMap(a) == IndexMap(b);
    SortedKeysUnique(s.stateIds, t.stateIds, s.indices);
  }

  /** A registrar restored from a snapshot gives, for every later sequence of transitions and whatever the
      engines are, the same answers and order indices as the original, and their snapshots stay equal. */
  lemma RestoredBehavesAlike(c: Config, h: History, snap: Snapshot, ts: seq<Transition>, later: Snapshot, later': Snapshot)
    requires Depicts(snap, c, h) && Restore(c, snap).Ok?
    requires Depicts(later, c, Run(c, h, ts).1) && Depicts(later', c, Run(c, Restore(c, snap).value, ts).1)
    ensures Run(c, h, ts).0 == Run(c, Restore(c, snap).value, ts).0 && later == later'
  {
    hide ValidHistory, Similar, Restore, Run, LineageMap, SortedKeys;
    RestoredIsSimilar(c, h, snap);
    RunKeepsSimilar(c, h, Restore(c, snap).value, ts);
    SimilarSnapshots(c, Run(c, h, ts).1, Run(c, Restore(c, snap).value, ts).1, later, later');
  }

  // ---------------------------------------------------------------- when a snapshot can be restored

  /** Ranks in which every cross-id parent is registered and comes before its child. */
  ghost predicate Ranks(h: History, rank: map<string, nat>)
    requires ValidHistory(h)
  {
    forall id :: id in h.latest && ParentOf(h, id).Some? ==>
      var p := ParentOf(h, id).value;
      p in h.latest && id in rank && p in rank && rank[p] < rank[id]
  }

  /** Every chain of cross-id parents ends at a registered root. */
  ghost predicate Rooted(h: History)
    requires ValidHistory(h)
  {
    exists rank :: Ranks(h, rank)
  }

  ghost predicate RanksIn(lineage: map<string, Option<string>>, rank: map<string, nat>) {
    forall id :: id in lineage && lineage[id].Some? ==>
      lineage[id].value in lineage && id in rank && lineage[id].value in rank && rank[lineage[id].value] < rank[id]
  }

  /** How many ids a walk to the root meets. */
  function Depth(lineage: map<string, Option<string>>, cursor: Option<string>, seen: set<string>): nat
    requires ReachesRoot(lineage, cursor, seen)
    decreases |lineage.Keys - seen|
  {
    match cursor
    case None => 0
    case Some(id) =>
      SmallerSet(lineage.Keys - (seen + {id}), lineage.Keys - seen);
      1 + Depth(lineage, lineage[id], seen + {id})
  }

  lemma {:induction false} DepthIgnoresSeen(lineage: map<string, Option<string>>, cursor: Option<string>, a: set<string>, b: set<string>)
    requires ReachesRoot(lineage, cursor, a) && ReachesRoot(lineage, cursor, b)
    ensures Depth(lineage, cursor, a) == Depth(lineage, cursor, b)
    decreases Depth(lineage, cursor, a)
  {
    if cursor.Some? {
      DepthIgnoresSeen(lineage, lineage[cursor.value], a + {cursor.value}, b + {cursor.value});
    }
  }

  lemma DepthRanks(lineage: map<string, Option<string>>, id: string)
    requires id in lineage && lineage[id].Some? && ReachesRoot(lineage, Some(id), {}) && ReachesRoot(lineage, lineage[id], {})
    ensures lineage[id].value in lineage
    ensures Depth(lineage, lineage[id], {}) < Depth(lineage, Some(id), {})
  {
    DepthIgnoresSeen(lineage, lineage[id], {} + {id}, {});
  }

  lemma {:induction false} RankedReachesRoot(lineage: map<string, Option<string>>, rank: map<string, nat>, id: string, seen: set<string>)
    requires RanksIn(lineage, rank) && id in lineage && id !in seen
    requires lineage[id].Some? ==> forall x :: x in seen ==> x in rank && rank[x] > rank[id]
    ensures ReachesRoot(lineage, Some(id), seen)
    decreases if lineage[id].Some? then 1 + rank[id] else 0
  {
    if lineage[id].Some? {
      RankedReachesRoot(lineage, rank, lineage[id].value, seen + {id});
    }
  }

  /** The walk from every id reaches a root exactly when ids can be ranked. */
  lemma RootedExactly(lineage: map<string, Option<string>>)
    ensures (forall id :: id in lineage ==> (lineage[id].Some? ==> lineage[id].value in lineage) && ReachesRoot(lineage, Some(id), {}))
       <==> exists rank :: RanksIn(lineage, rank)
  {
    hide ReachesRoot;
    if forall id :: id in lineage ==> (lineage[id].Some? ==> lineage[id].value in lineage) && ReachesRoot(lineage, Some(id), {}) {
      var rank := map id | id in lineage && ReachesRoot(lineage, Some(id), {}) :: Depth(lineage, Some(id), {});
      forall id | id in lineage && lineage[id].Some?
        ensures rank[lineage[id].value] < rank[id]
      {
        assert ReachesRoot(lineage, Some(lineage[id].value), {});
        DepthRanks(lineage, id);
      }
      assert RanksIn(lineage, rank);
    }
    if rank :| RanksIn(lineage, rank) {
      forall id | id in lineage
        ensures ReachesRoot(lineage, Some(id), {})
      {
        RankedReachesRoot(lineage, rank, id, {});
      }
    }
  }

  lemma RanksOfLineage(h: History, rank: map<string, nat>)
    requires ValidHistory(h)
    ensures RanksIn(LineageMap(h), rank) <==> Ranks(h, rank)
  {
    hide ValidHistory, CrossParent;
    var lineage := LineageMap(h);
    assert forall id :: id in h.latest ==> id in lineage && lineage[id] == ParentOf(h, id);
    assert RanksIn(lineage, rank) ==> Ranks(h, rank);
  }

  /** A snapshot can be restored in the configuration it was taken in if and only if that has a fingerprint and
      every chain of cross-id parents ends at a registered root; otherwise it is refused as invalid. */
  lemma RestorableExactly(c: Config, h: History, snap: Snapshot)
    requires Depicts(snap, c, h)
    ensures Restore(c, snap).Ok? <==> c.hash != "" && Rooted(h)
    ensures Restore(c, snap).Err? ==> Restore(c, snap) == Err(SnapshotInvalid)
  {
    hide ValidHistory, ParentOf, ReachesRoot, RanksIn, Ranks, LineageMap, SortedKeys, IndexMap;
    SnapshotConsistentExactly(c, h, snap);
    RootedExactly(snap.lineage);
    if Rooted(h) {
      var rank :| Ranks(h, rank);
      RanksOfLineage(h, rank);
    }
    if rank :| RanksIn(snap.lineage, rank) {
      RanksOfLineage(h, rank);
    }
  }

  lemma SnapshotConsistentExactly(c: Config, h: History, snap: Snapshot)
    requires Depicts(snap, c, h)
    ensures Consistent(snap) <==>
      forall id :: id in snap.lineage ==> (snap.lineage[id].Some? ==> snap.lineage[id].value in snap.lineage) && ReachesRoot(snap.lineage, Some(id), {})
  {
    hide ValidHistory, ParentOf, ReachesRoot;
    SnapshotKeys(c, h, snap);
    NoKeys(snap.stateIds, snap.indices);
    SnapshotIndices(c, h, snap);
    assert forall id :: id in snap.lineage <==> id in h.latest;
    assert forall id :: id in snap.indices <==> id in h.latest;
  }

  lemma {:induction false} ChainsHaveNoCrossParent(h: History, id: string, key: string)
    requires ValidHistory(h) && key in h.versions && h.versions[key].id == id && SameIdParents(h)
    ensures CrossParent(h, id, key) == None
    decreases h.versions[key].orderIndex
  {
    hide ValidHistory;
    VersionIsOk(h, key);
    var v := h.versions[key];
    if v.parentId.Some? && v.parentKey.Some? {
      ChainsHaveNoCrossParent(h, id, v.parentKey.value);
    }
  }

  /** Every version names its own id as parent, or none. */
  ghost predicate SameIdParents(h: History) {
    forall k :: k in h.versions ==> h.versions[k].parentId == None || h.versions[k].parentId == Some(h.versions[k].id)
  }

  lemma {:induction false} RunKeepsSameId(c: Config, h: History, ts: seq<Transition>)
    requires Witnessed(c) && ValidHistory(h) && SameIdParents(h)
    ensures SameIdParents(Run(c, h, ts).1)
  {
    hide ValidHistory, Register, Witnessed, MakeVersionKey;
    if ts != [] {
      var n := |ts| - 1;
      RunKeepsSameId(c, h, ts[..n]);
      RunKeepsValid(c, h, ts[..n]);
      var before := Run(c, h, ts[..n]).1;
      RegisterKeepsValid(c, before, ts[n]);
      if Register(c, before, ts[n]).0.Registered? {
        AcceptedIsAdmissible(c, before, ts[n]);
      }
    }
  }

  /** So under the initial invariants a snapshot can always be restored in the same configuration. */
  lemma RestoreNeverFails(c: Config, ts: seq<Transition>, snap: Snapshot)
    requires Witnessed(c) && c.hash != "" && Depicts(snap, c, Run(c, EMPTY, ts).1)
    ensures Restore(c, snap).Ok?
  {
    hide Run, Witnessed, ValidHistory, Restore, ParentOf;
    var h := Run(c, EMPTY, ts).1;
    EmptyIsValid();
    RunKeepsValid(c, EMPTY, ts);
    RunKeepsSameId(c, EMPTY, ts);
    SameIdIsRooted(h);
    RestorableExactly(c, h, snap);
  }

  lemma SameIdIsRooted(h: History)
    requires ValidHistory(h) && SameIdParents(h)
    ensures Rooted(h)
  {
    hide ValidHistory, CrossParent;
    forall id | id in h.latest
      ensures ParentOf(h, id) == None
    {
      LatestIsOk(h, id);
      ChainsHaveNoCrossParent(h, id, h.latest[id].versionKey);
    }
    assert Ranks(h, map[]);
  }

  lemma SnapshotIndices(c: Config, h: History, snap: Snapshot)
    requires Depicts(snap, c, h)
    ensures forall id :: id in snap.indices ==> 0 <= snap.indices[id] <= snap.maxIndex
    ensures forall i, j :: i in snap.indices && j in snap.indices && snap.indices[i] == snap.indices[j] ==> i == j
    ensures if snap.indices == map[] then snap.maxIndex == -1 else exists id :: id in snap.indices && snap.indices[id] == snap.maxIndex
  {
    hide ParentOf, MakeVersionKey, LineageMap, SortedKeys;
    forall i, j | i in snap.indices && j in snap.indices && snap.indices[i] == snap.indices[j]
      ensures i == j
    {
      assert LatestOk(h, i) && LatestOk(h, j);
    }
    forall id | id in snap.indices
      ensures 0 <= snap.indices[id] <= snap.maxIndex
    {
      assert LatestOk(h, id);
      assert VersionOk(h, h.latest[id].versionKey);
    }
    if h.next == 0 {
      assert snap.indices == map[];
    } else {
      var id :| id in h.latest && h.latest[id].orderIndex == h.next - 1;
      assert snap.indices[id] == snap.maxIndex;
    }
  }

  lemma NoInvariantsAcceptAll(c: Config, h: History, t: Transition)
    requires c.mode == Legacy && c.invariants == [] && ValidHistory(h)
    ensures Register(c, h, t).1 == WithVersion(h, NewVersion(h, t)) && ValidHistory(WithVersion(h, NewVersion(h, t)))
  {
    hide ValidHistory;
    KeyIsFresh(h, t.to.id);
    AcceptKeepsValid(h, t);
  }

  lemma RunThree(c: Config, h: History, t0: Transition, t1: Transition, t2: Transition)
    ensures Run(c, h, [t0, t1, t2]).1 == Register(c, Register(c, Register(c, h, t0).1, t1).1, t2).1
  {
    hide Register;
    assert [t0, t1, t2][..2] == [t0, t1] && [t0, t1][..1] == [t0] && [t0][..0] == [];
    assert Run(c, h, [t0]).1 == Register(c, h, t0).1;
    assert Run(c, h, [t0, t1]).1 == Register(c, Run(c, h, [t0]).1, t1).1;
  }

  lemma ForeignParent(h: History, id: string, parent: string)
    requires ValidHistory(h) && id in h.latest && h.latest[id].parentId == Some(parent) && parent != id
    ensures ParentOf(h, id) == Some(parent)
  {
    LatestIsOk(h, id);
  }

  /** With other invariants it can fail: a state that descends from its own descendant is accepted, and its
      snapshot is then refused. */
  lemma CyclicAncestryIsRefused(c: Config, snap: Snapshot, a: State, b: State)
    requires c.mode == Legacy && c.invariants == [] && a.id == "a" && b.id == "b"
    requires Depicts(snap, c, Run(c, EMPTY, [Transition(None, a), Transition(Some("a"), b), Transition(Some("b"), a)]).1)
    ensures Restore(c, snap) == Err(SnapshotInvalid)
  {
    hide MakeVersionKey, ValidHistory, Register, Run, ParentOf, Restore;
    var t0, t1, t2 := Transition(None, a), Transition(Some("a"), b), Transition(Some("b"), a);
    EmptyIsValid();
    NoInvariantsAcceptAll(c, EMPTY, t0);
    var h1 := WithVersion(EMPTY, NewVersion(EMPTY, t0));
    NoInvariantsAcceptAll(c, h1, t1);
    var h2 := WithVersion(h1, NewVersion(h1, t1));
    NoInvariantsAcceptAll(c, h2, t2);
    var h3 := WithVersion(h2, NewVersion(h2, t2));
    RunThree(c, EMPTY, t0, t1, t2);
    ForeignParent(h3, "a", "b");
    ForeignParent(h3, "b", "a");
    RestorableExactly(c, h3, snap);
  }

  /** So is the snapshot of a state whose parent was never registered. */
  lemma UnregisteredParentIsRefused(c: Config, snap: Snapshot, a: State, parent: string)
    requires c.mode == Legacy && c.invariants == [] && a.id != parent
    requires Depicts(snap, c, Run(c, EMPTY, [Transition(Some(parent), a)]).1)
    ensures Restore(c, snap) == Err(SnapshotInvalid)
  {
    hide MakeVersionKey, ValidHistory, Register, ParentOf, Restore;
    var t := Transition(Some(parent), a);
    EmptyIsValid();
    NoInvariantsAcceptAll(c, EMPTY, t);
    var h := WithVersion(EMPTY, NewVersion(EMPTY, t));
    assert [t][..0] == [];
    assert Run(c, EMPTY, []).1 == EMPTY;
    assert Run(c, EMPTY, [t]).1 == h;
    ForeignParent(h, a.id, parent);
    RestorableExactly(c, h, snap);
  }
}
