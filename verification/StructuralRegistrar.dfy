/** The registrar as an object: its maps, counter and parity status, updated in place and proved against the
    history functions (packages/registrum/src/structural-registrar.ts). */
module StructuralRegistrars {
  import opened Wrappers
  import opened RegistrarModel
  import opened RegistrarRuns
  import opened RegistrarSnapshots

  datatype Parity = Unset | Agreed | Halted

  class StructuralRegistrar {
    const config: Config
    var versionsByKey: map<string, Version>
    var latestById: map<string, Version>
    var currentOrderIndex: nat
    var lastParityStatus: Parity

    ghost function Contents(): History
      reads this
    {
      History(versionsByKey, latestById, currentOrderIndex)
    }

    constructor (config: Config)
      ensures this.config == config && Contents() == EMPTY && lastParityStatus == Unset
    {
      this.config := config;
      versionsByKey, latestById, currentOrderIndex, lastParityStatus := map[], map[], 0, Unset;
    }

    /** evaluateLegacyRegistration: every invariant on the input its scope asks for; nothing changes. */
    method EvaluateLegacy(t: Transition) returns (v: Verdict)
      ensures v == LegacyVerdict(config.invariants, t, latestById.Keys, currentOrderIndex)
    {
      var violations: seq<Violation> := [];
      var applied: seq<string> := [];
      for k := 0 to |config.invariants|
        invariant Verdict(violations, applied) == LegacyVerdict(config.invariants[..k], t, latestById.Keys, currentOrderIndex)
      {
        var invs := config.invariants;
        assert invs[..k + 1][..k] == invs[..k];
        var inv := invs[k];
        applied := applied + [inv.id];
        var input;
        match inv.scope {
          case OfState => input := StateInput(t.to);
          case OfTransition => input := TransitionInput(t);
          case OfRegistration => input := RegistrationInput(t, latestById.Keys, currentOrderIndex);
        }
        if !inv.holds(input) {
          violations := violations + [Violation(inv.id, inv.halts)];
        }
      }
      assert config.invariants[..|config.invariants|] == config.invariants;
      v := Verdict(violations, applied);
    }

    /** register: judge without changing anything, then accept at most once. */
    method Register(t: Transition) returns (answer: Answer)
      modifies this
      ensures (answer, Contents()) == RegistrarModel.Register(config, old(Contents()), t)
      ensures lastParityStatus == if config.mode != Dual then old(lastParityStatus) else if answer.ParityHalt? then Parity.Halted else Agreed
    {
      hide LegacyVerdict, MakeVersionKey, SameVerdict;
      var verdict;
      if config.mode == Dual {
        var registry := config.registry(t, latestById.Keys, currentOrderIndex);
        var legacy := EvaluateLegacy(t);
        if !SameVerdict(registry, legacy) {
          lastParityStatus := Parity.Halted;
          return ParityHalt;
        }
        lastParityStatus := Agreed;
        verdict := registry;
      } else if config.mode == Registry {
        verdict := config.registry(t, latestById.Keys, currentOrderIndex);
      } else {
        verdict := EvaluateLegacy(t);
      }
      if verdict.violations != [] {
        return Refused(verdict.violations);
      }
      answer := AcceptTransition(t, verdict.applied);
    }

    method AcceptTransition(t: Transition, applied: seq<string>) returns (answer: Answer)
      modifies this`versionsByKey, this`latestById, this`currentOrderIndex
      ensures var h, v := old(Contents()), NewVersion(old(Contents()), t);
              (answer, Contents()) == if v.versionKey in h.versions then (AppendOnlyViolation(v.versionKey), h.(next := h.next + 1))
                                      else (Registered(t.to.id, h.next, applied), WithVersion(h, v))
    {
      hide MakeVersionKey;
      var orderIndex := currentOrderIndex;
      currentOrderIndex := currentOrderIndex + 1;
      var id := t.to.id;
      var versionKey := MakeVersionKey(id, orderIndex);
      var parentKey: Option<string> := None;
      if t.from.Some? {
        if t.from.value in latestById {
          parentKey := Some(latestById[t.from.value].versionKey);
        }
      }
      var version := Version(id, t.from, orderIndex, versionKey, parentKey);
      if versionKey in versionsByKey {
        return AppendOnlyViolation(versionKey);
      }
      versionsByKey := versionsByKey[versionKey := version];
      latestById := latestById[id := version];
      answer := Registered(id, orderIndex, applied);
    }

    /** getLineage: the walk along parent keys; its cycle guard is never taken. */
    method GetLineage(stateId: string) returns (lineage: seq<string>)
      requires ValidHistory(Contents())
      ensures lineage == Lineage(Contents(), stateId)
    {
      hide ValidHistory, LineageFrom;
      lineage := [];
      if stateId !in latestById { return; }
      ghost var h := Contents();
      LatestIsOk(h, stateId);
      var current := Some(latestById[stateId]);
      var visited: set<string> := {};
      while current.Some?
        invariant current.Some? ==> current.value.versionKey in h.versions && h.versions[current.value.versionKey] == current.value
        invariant Lineage(h, stateId) == lineage + if current.Some? then LineageFrom(h, current.value.versionKey) else []
        invariant current.Some? ==> Later(h, visited, current.value.orderIndex)
        decreases if current.Some? then current.value.orderIndex + 1 else 0
      {
        var v := current.value;
        VersionIsOk(h, v.versionKey);
        LineageStep(h, v.versionKey);
        assert v.versionKey !in visited;
        if v.versionKey in visited { break; }
        visited := visited + {v.versionKey};
        lineage := lineage + [v.id];
        if v.parentKey.Some? && v.parentKey.value in versionsByKey {
          VersionIsOk(h, v.parentKey.value);
          current := Some(versionsByKey[v.parentKey.value]);
        } else {
          current := None;
        }
      }
    }

    /** resolveSnapshotParentId. */
    method ResolveSnapshotParentId(entry: Version) returns (parent: Option<string>)
      requires ValidHistory(Contents()) && entry.versionKey in versionsByKey && versionsByKey[entry.versionKey] == entry
      ensures parent == CrossParent(Contents(), entry.id, entry.versionKey)
    {
      hide ValidHistory;
      ghost var h := Contents();
      var id := entry.id;
      var current := entry;
      var visited: set<string> := {};
      while true
        invariant current.versionKey in h.versions && h.versions[current.versionKey] == current
        invariant CrossParent(h, id, entry.versionKey) == CrossParent(h, id, current.versionKey)
        invariant Later(h, visited, current.orderIndex)
        decreases current.orderIndex
      {
        VersionIsOk(h, current.versionKey);
        assert current.versionKey !in visited;
        if current.versionKey in visited { return None; }
        visited := visited + {current.versionKey};
        if current.parentId.Some? && current.parentId.value != id { return current.parentId; }
        if current.parentId == None { return None; }
        if current.parentKey == None || current.parentKey.value !in versionsByKey { return None; }
        VersionIsOk(h, current.parentKey.value);
        current := versionsByKey[current.parentKey.value];
      }
    }

    /** snapshot: the frontier by index, each state's parent across ids, and the indices. */
    method TakeSnapshot() returns (snap: Snapshot)
      requires ValidHistory(Contents())
      ensures Depicts(snap, config, Contents())
    {
      hide ValidHistory, SortedKeys, LineageMap;
      var indices: map<string, int> := map id | id in latestById :: latestById[id].orderIndex;
      FrontierIndicesDiffer(Contents());
      var stateIds := SortByIndex(indices);
      var lineage := SnapshotLineage();
      snap := Snapshot(SNAPSHOT_VERSION, config.hash, config.mode, stateIds, lineage, currentOrderIndex - 1, indices);
    }

    method SnapshotLineage() returns (lineage: map<string, Option<string>>)
      requires ValidHistory(Contents())
      ensures lineage == LineageMap(Contents())
    {
      hide ValidHistory, CrossParent;
      ghost var h := Contents();
      lineage := map[];
      var todo := latestById.Keys;
      while todo != {}
        invariant todo <= latestById.Keys && lineage.Keys == latestById.Keys - todo
        invariant forall id :: id in lineage ==> id in h.latest && lineage[id] == ParentOf(h, id)
        decreases |todo|
      {
        var id :| id in todo;
        LatestIsOk(h, id);
        var parent := ResolveSnapshotParentId(latestById[id]);
        lineage := lineage[id := parent];
        todo := todo - {id};
      }
    }

    /** injectRehydratedState, on a fresh registrar. */
    constructor Inject(config: Config, snap: Snapshot)
      requires Consistent(snap)
      ensures this.config == config && Contents() == Injected(snap) && lastParityStatus == Unset
    {
      hide Consistent, MakeVersionKey, Versions, Frontier;
      AllEntered(snap);
      InjectedNone(snap);
      this.config := config;
      versionsByKey, latestById, lastParityStatus := map[], map[], Unset;
      currentOrderIndex := NextIndex(snap);
      new;
      for i := 0 to |snap.stateIds|
        invariant versionsByKey == Versions(snap, snap.stateIds[..i])
        invariant latestById == Frontier(snap, snap.stateIds[..i])
        invariant currentOrderIndex == snap.maxIndex + 1
        modifies this`versionsByKey, this`latestById
      {
        var id := snap.stateIds[i];
        assert Entered(snap, id);
        InjectedSnoc(snap, i);
        var version := Version(id, snap.lineage[id], snap.indices[id], MakeVersionKey(id, snap.indices[id]), None);
        versionsByKey := versionsByKey[version.versionKey := version];
        latestById := latestById[id := version];
      }
      assert snap.stateIds[..|snap.stateIds|] == snap.stateIds;
    }

    static method FromSnapshot(config: Config, snap: Snapshot) returns (r: Result<StructuralRegistrar, RestoreError>)
      ensures r.Err? <==> Restore(config, snap).Err?
      ensures r.Err? ==> r.error == Restore(config, snap).error
      ensures r.Ok? ==> fresh(r.value) && r.value.config == config && r.value.Contents() == Restore(config, snap).value
    {
      hide Consistent, Injected;
      if snap.version != SNAPSHOT_VERSION || snap.hash == "" || !Consistent(snap) { return Err(SnapshotInvalid); }
      if snap.mode != config.mode { return Err(ModeMismatch); }
      if snap.hash != config.hash { return Err(RegistryDrift); }
      var registrar := new StructuralRegistrar.Inject(config, snap);
      r := Ok(registrar);
    }
  }

  /** The walk has only passed versions with greater indices. */
  ghost predicate Later(h: History, visited: set<string>, index: int) {
    forall k :: k in visited ==> k in h.versions && h.versions[k].orderIndex > index
  }

  lemma LineageStep(h: History, key: string)
    requires ValidHistory(h) && key in h.versions && VersionOk(h, key)
    ensures LineageFrom(h, key) == [h.versions[key].id]
                                   + if h.versions[key].parentKey.Some? then LineageFrom(h, h.versions[key].parentKey.value) else []
  {
  }

  function NextIndex(snap: Snapshot): (n: nat)
    requires Consistent(snap)
    ensures n == snap.maxIndex + 1
  {
    snap.maxIndex + 1
  }

  lemma InjectedNone(snap: Snapshot)
    ensures Versions(snap, []) == map[] && Frontier(snap, []) == map[]
  {
  }

  lemma InjectedSnoc(snap: Snapshot, i: nat)
    requires i < |snap.stateIds| && forall id :: id in snap.stateIds ==> Entered(snap, id)
    ensures var before, now := snap.stateIds[..i], snap.stateIds[..i + 1];
            var v := RestoredVersion(snap, snap.stateIds[i]);
            && (forall id :: id in now ==> Entered(snap, id))
            && Versions(snap, now) == Versions(snap, before)[v.versionKey := v]
            && Frontier(snap, now) == Frontier(snap, before)[v.id := v]
  {
    hide MakeVersionKey, Entered;
    var before, now := snap.stateIds[..i], snap.stateIds[..i + 1];
    assert now == before + [snap.stateIds[i]] && now[..i] == before;
  }

  ghost predicate DistinctValues(indices: map<string, int>) {
    forall i, j :: i in indices && j in indices && indices[i] == indices[j] ==> i == j
  }

  lemma FrontierIndicesDiffer(h: History)
    requires ValidHistory(h)
    ensures DistinctValues(IndexMap(h))
  {
    forall i, j | i in h.latest && j in h.latest && h.latest[i].orderIndex == h.latest[j].orderIndex
      ensures i == j
    {
      assert LatestOk(h, i) && LatestOk(h, j);
    }
  }

  /** The ids in order of their indices, by insertion. */
  method SortByIndex(indices: map<string, int>) returns (ids: seq<string>)
    requires DistinctValues(indices)
    ensures SortedKeys(ids, indices)
  {
    ids := [];
    var todo := indices.Keys;
    while todo != {}
      invariant todo <= indices.Keys && Increasing(ids, indices)
      invariant forall id :: id in ids <==> id in indices && id !in todo
      decreases |todo|
    {
      var id :| id in todo;
      ids := InsertByIndex(ids, id, indices);
      todo := todo - {id};
    }
  }

  ghost predicate Increasing(ids: seq<string>, indices: map<string, int>) {
    && (forall j :: 0 <= j < |ids| ==> ids[j] in indices)
    && (forall j, k :: 0 <= j < k < |ids| ==> indices[ids[j]] < indices[ids[k]])
  }

  method InsertByIndex(ids: seq<string>, id: string, indices: map<string, int>) returns (r: seq<string>)
    requires DistinctValues(indices) && id in indices && id !in ids && Increasing(ids, indices)
    ensures Increasing(r, indices) && forall other :: other in r <==> other in ids || other == id
  {
    hide DistinctValues, Increasing;
    var at := |ids|;
    AllHaveIndex(ids, indices);
    while at > 0 && indices[ids[at - 1]] > indices[id]
      invariant 0 <= at <= |ids|
      invariant at < |ids| ==> indices[ids[at]] > indices[id]
    {
      at := at - 1;
    }
    if at > 0 {
      IndicesDiffer(ids[at - 1], id, indices);
    }
    r := ids[..at] + ([id] + ids[at..]);
    InsertedIncreasing(ids, id, at, indices);
    InsertedMembers(ids, id, at);
  }

  lemma AllHaveIndex(ids: seq<string>, indices: map<string, int>)
    requires Increasing(ids, indices)
    ensures forall j :: 0 <= j < |ids| ==> ids[j] in indices
  {
  }

  lemma IndicesDiffer(a: string, b: string, indices: map<string, int>)
    requires DistinctValues(indices) && a in indices && b in indices && a != b
    ensures indices[a] != indices[b]
  {
  }

  lemma InsertedMembers(ids: seq<string>, id: string, at: nat)
    requires at <= |ids|
    ensures forall other :: other in ids[..at] + ([id] + ids[at..]) <==> other in ids || other == id
  {
    assert ids == ids[..at] + ids[at..];
  }

  lemma InsertedIncreasing(ids: seq<string>, id: string, at: nat, indices: map<string, int>)
    requires Increasing(ids, indices) && id in indices && at <= |ids|
    requires at > 0 ==> indices[ids[at - 1]] < indices[id]
    requires at < |ids| ==> indices[id] < indices[ids[at]]
    ensures Increasing(ids[..at] + ([id] + ids[at..]), indices)
  {
    var r := ids[..at] + ([id] + ids[at..]);
    forall j | 0 <= j < |r|
      ensures r[j] == if j < at then ids[j] else if j == at then id else ids[j - 1]
    {
    }
  }
}
