/** Which snapshots a registrar accepts, whatever they were read from: exactly those that some rooted history
    could have produced (packages/registrum/src/persistence/snapshot.ts,
    packages/registrum/src/persistence/rehydrator.ts). */
module RegistrarAcceptance {
  import opened Wrappers
  import opened RegistrarModel
  import opened RegistrarRuns
  import opened RegistrarSnapshots

  /** The snapshot lists a history's states, parents, indices and highest index; the ids in any order. */
  ghost predicate Records(snap: Snapshot, h: History) {
    && ValidHistory(h) && Rooted(h)
    && (forall id :: id in snap.stateIds <==> id in h.latest)
    && snap.lineage == LineageMap(h) && snap.indices == IndexMap(h) && snap.maxIndex == h.next - 1
  }

  lemma RecordedParents(snap: Snapshot, h: History)
    requires Records(snap, h)
    ensures forall id :: id in snap.lineage <==> id in snap.stateIds
    ensures forall id :: id in snap.lineage ==> (snap.lineage[id].Some? ==> snap.lineage[id].value in snap.lineage) && ReachesRoot(snap.lineage, Some(id), {})
  {
    hide ValidHistory, ParentOf, ReachesRoot, Ranks, RanksIn;
    var rank :| Ranks(h, rank);
    RanksOfLineage(h, rank);
    RootedExactly(snap.lineage);
  }

  lemma RecordedIndices(snap: Snapshot, h: History)
    requires Records(snap, h)
    ensures forall id :: id in snap.indices <==> id in snap.stateIds
    ensures forall id :: id in snap.indices ==> 0 <= snap.indices[id] <= snap.maxIndex
    ensures forall i, j :: i in snap.indices && j in snap.indices && snap.indices[i] == snap.indices[j] ==> i == j
    ensures if snap.stateIds == [] then snap.maxIndex == -1 else exists id :: id in snap.indices && snap.indices[id] == snap.maxIndex
  {
    hide ParentOf, MakeVersionKey, LineageMap, Rooted;
    forall i, j | i in snap.indices && j in snap.indices && snap.indices[i] == snap.indices[j]
      ensures i == j
    {
      assert LatestOk(h, i) && LatestOk(h, j);
    }
    forall id | id in snap.indices
      ensures 0 <= snap.indices[id] <= snap.maxIndex
    {
      assert LatestOk(h, id);
      assert VersionOk(h, h.latest[id].versionKey);
    }
    NoIds(snap.stateIds);
    if h.next > 0 {
      var id :| id in h.latest && h.latest[id].orderIndex == h.next - 1;
      assert snap.indices[id] == snap.maxIndex && id in snap.stateIds;
    }
  }

  lemma NoIds(ids: seq<string>)
    ensures ids == [] <==> forall id :: id !in ids
  {
    if ids != [] {
      assert ids[0] in ids;
    }
  }

  lemma RecordsIsConsistent(snap: Snapshot, h: History)
    requires Records(snap, h)
    ensures Consistent(snap)
  {
    hide Records, ReachesRoot;
    RecordedParents(snap, h);
    RecordedIndices(snap, h);
  }

  lemma NotItsOwnParent(lineage: map<string, Option<string>>, id: string)
    requires id in lineage && ReachesRoot(lineage, Some(id), {})
    ensures lineage[id] != Some(id)
  {
  }

  lemma ConsistentParts(snap: Snapshot)
    requires Consistent(snap)
    ensures forall id :: id in snap.stateIds <==> id in snap.lineage
    ensures forall id :: id in snap.stateIds <==> id in snap.indices
    ensures forall id :: id in snap.lineage ==> (snap.lineage[id].Some? ==> snap.lineage[id].value in snap.lineage) && ReachesRoot(snap.lineage, Some(id), {})
  {
    hide ReachesRoot;
  }

  /** A consistent snapshot records the history that restoring it gives. */
  lemma ConsistentRecords(snap: Snapshot)
    requires Consistent(snap)
    ensures Records(snap, Injected(snap))
  {
    hide Consistent, ValidHistory, ParentOf, ReachesRoot, Versions, MakeVersionKey, Rooted;
    var h := Injected(snap);
    InjectedValid(snap);
    ConsistentParts(snap);
    AllEntered(snap);
    forall id | id in h.latest
      ensures ParentOf(h, id) == snap.lineage[id] && h.latest[id].orderIndex == snap.indices[id]
    {
      NotItsOwnParent(snap.lineage, id);
      RestoredParent(h, id, snap.lineage[id]);
    }
    assert LineageMap(h) == snap.lineage && IndexMap(h) == snap.indices;
    ReachedIsRooted(h);
  }

  lemma ReachedIsRooted(h: History)
    requires ValidHistory(h)
    requires var lineage := LineageMap(h);
             forall id :: id in lineage ==> (lineage[id].Some? ==> lineage[id].value in lineage) && ReachesRoot(lineage, Some(id), {})
    ensures Rooted(h)
  {
    hide ValidHistory, ReachesRoot, Ranks, RanksIn, LineageMap;
    RootedExactly(LineageMap(h));
    var rank :| RanksIn(LineageMap(h), rank);
    RanksOfLineage(h, rank);
  }

  /** A snapshot is accepted exactly if it is of the known version, carries this configuration's mode and
      fingerprint, and records some rooted history; otherwise the first of these that fails decides the error. */
  lemma AcceptedExactly(c: Config, snap: Snapshot)
    ensures var genuine := snap.version == "1.0" && snap.hash != "" && exists h :: Records(snap, h);
            && (Restore(c, snap) == Err(SnapshotInvalid) <==> !genuine)
            && (Restore(c, snap) == Err(ModeMismatch) <==> genuine && snap.mode != c.mode)
            && (Restore(c, snap) == Err(RegistryDrift) <==> genuine && snap.mode == c.mode && snap.hash != c.hash)
            && (Restore(c, snap).Ok? <==> genuine && snap.mode == c.mode && snap.hash == c.hash)
            && (Restore(c, snap).Ok? ==> Records(snap, Restore(c, snap).value))
  {
    hide Consistent, Records;
    if Consistent(snap) {
      ConsistentRecords(snap);
    }
    if h :| Records(snap, h) {
      RecordsIsConsistent(snap, h);
    }
  }
}
