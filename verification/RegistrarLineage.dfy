/** Lineages after restoring: a snapshot keeps the frontier but no links among versions
    (packages/registrum/src/structural-registrar.ts). */
module RegistrarLineage {
  import opened Wrappers
  import opened RegistrarModel
  import opened RegistrarRuns
  import opened RegistrarSnapshots

  /** A lineage follows the parent links: it starts with the frontier version of the id, each further entry is the
      version its predecessor links to, and it ends at one without a parent. */
  lemma {:induction false} LineageWalk(h: History, key: string) returns (ks: seq<string>)
    requires ValidHistory(h) && key in h.versions
    ensures |ks| == |LineageFrom(h, key)| && ks != [] && ks[0] == key
    ensures forall i :: 0 <= i < |ks| ==> ks[i] in h.versions && h.versions[ks[i]].id == LineageFrom(h, key)[i]
    ensures forall i :: 0 <= i < |ks| - 1 ==> h.versions[ks[i]].parentKey == Some(ks[i + 1])
    ensures h.versions[ks[|ks| - 1]].parentKey == None
    decreases h.versions[key].orderIndex
  {
    hide ValidHistory;
    VersionIsOk(h, key);
    if h.versions[key].parentKey == None {
      ks := [key];
    } else {
      var rest := LineageWalk(h, h.versions[key].parentKey.value);
      ks := [key] + rest;
    }
  }

  lemma LineageStarts(h: History, id: string)
    requires ValidHistory(h)
    ensures Lineage(h, id) == [] <==> id !in h.latest
    ensures id in h.latest ==> h.latest[id].versionKey in h.versions && Lineage(h, id) == LineageFrom(h, h.latest[id].versionKey) && Lineage(h, id)[0] == id
  {
    hide ValidHistory;
    if id in h.latest {
      LatestIsOk(h, id);
    }
  }

  /** r has some of h's versions under the same keys and the same frontier; a version of r has h's link to its
      parent or, unless all links are kept, none. */
  ghost predicate CutOf(r: History, h: History, whole: bool) {
    && r.next == h.next && r.latest.Keys == h.latest.Keys
    && (forall id :: id in r.latest ==> r.latest[id].versionKey == h.latest[id].versionKey)
    && (forall k :: k in r.versions ==> VersionCut(r, h, k, whole))
  }

  ghost predicate VersionCut(r: History, h: History, k: string, whole: bool)
    requires k in r.versions
  {
    && k in h.versions && r.versions[k].id == h.versions[k].id
    && (r.versions[k].parentKey == h.versions[k].parentKey || (!whole && r.versions[k].parentKey == None))
  }

  lemma {:induction false} CutLineageFrom(r: History, h: History, key: string, whole: bool)
    requires ValidHistory(r) && ValidHistory(h) && CutOf(r, h, whole) && key in r.versions
    ensures key in h.versions && LineageFrom(r, key) <= LineageFrom(h, key)
    ensures whole ==> LineageFrom(r, key) == LineageFrom(h, key)
    decreases r.versions[key].orderIndex
  {
    hide ValidHistory;
    assert VersionCut(r, h, key, whole);
    VersionIsOk(r, key);
    VersionIsOk(h, key);
    if r.versions[key].parentKey.Some? {
      CutLineageFrom(r, h, r.versions[key].parentKey.value, whole);
    }
  }

  lemma CutLineage(r: History, h: History, id: string, whole: bool)
    requires ValidHistory(r) && ValidHistory(h) && CutOf(r, h, whole)
    ensures Lineage(r, id) <= Lineage(h, id)
    ensures whole ==> Lineage(r, id) == Lineage(h, id)
  {
    hide ValidHistory, LineageFrom, VersionCut;
    if id in h.latest {
      LatestIsOk(r, id);
      LatestIsOk(h, id);
      CutLineageFrom(r, h, r.latest[id].versionKey, whole);
    }
  }

  /** No frontier version has a parent. */
  ghost predicate FrontierIsRoots(h: History) {
    forall id :: id in h.latest ==> h.latest[id].parentKey == None
  }

  /** What restoring keeps of the versions. */
  lemma RestoredIsCut(c: Config, h: History, snap: Snapshot)
    requires Depicts(snap, c, h) && Restore(c, snap).Ok?
    ensures CutOf(Restore(c, snap).value, h, FrontierIsRoots(h))
  {
    hide ValidHistory, Consistent, MakeVersionKey, Versions, SortedKeys, ParentOf, VersionCut;
    var r, whole := Restore(c, snap).value, FrontierIsRoots(h);
    SnapshotKeys(c, h, snap);
    AllEntered(snap);
    forall id | id in h.latest
      ensures id in r.latest && r.latest[id].versionKey == h.latest[id].versionKey
    {
      LatestIsOk(h, id);
      VersionIsOk(h, h.latest[id].versionKey);
    }
    forall k | k in r.versions
      ensures VersionCut(r, h, k, whole)
    {
      var id := VersionOrigin(snap, snap.stateIds, k);
      LatestIsOk(h, id);
      VersionIsOk(h, h.latest[id].versionKey);
      RestoredVersionCut(r, h, k, id, whole);
    }
  }

  lemma RestoredVersionCut(r: History, h: History, k: string, id: string, whole: bool)
    requires k in r.versions && id in h.latest && LatestOk(h, id) && h.latest[id].versionKey == k
    requires r.versions[k].id == id && r.versions[k].parentKey == None && (whole ==> h.latest[id].parentKey == None)
    ensures VersionCut(r, h, k, whole)
  {
  }

  lemma RegisterKeepsCut(c: Config, r: History, h: History, t: Transition, whole: bool)
    requires ValidHistory(r) && ValidHistory(h) && Similar(h, r) && CutOf(r, h, whole)
    ensures CutOf(Register(c, r, t).1, Register(c, h, t).1, whole)
  {
    hide ValidHistory, ParentOf, Judge, MakeVersionKey;
    RegisterKeepsSimilar(c, h, r, t);
    RegisterKeepsValid(c, r, t);
    RegisterKeepsValid(c, h, t);
  }

  lemma {:induction false} RunKeepsCut(c: Config, r: History, h: History, ts: seq<Transition>, whole: bool)
    requires ValidHistory(r) && ValidHistory(h) && Similar(h, r) && CutOf(r, h, whole)
    ensures var (r', h') := (Run(c, r, ts).1, Run(c, h, ts).1);
            ValidHistory(r') && ValidHistory(h') && Similar(h', r') && CutOf(r', h', whole)
  {
    hide ValidHistory, Similar, Register, CutOf;
    if ts != [] {
      var n := |ts| - 1;
      RunKeepsCut(c, r, h, ts[..n], whole);
      RegisterKeepsCut(c, Run(c, r, ts[..n]).1, Run(c, h, ts[..n]).1, ts[n], whole);
      RegisterKeepsSimilar(c, Run(c, h, ts[..n]).1, Run(c, r, ts[..n]).1, ts[n]);
    }
  }

  /** After any later transitions, a restored registrar's lineage of an id is a prefix of the original's. */
  lemma RestoredLineageIsPrefix(c: Config, h: History, snap: Snapshot, ts: seq<Transition>, id: string)
    requires Depicts(snap, c, h) && Restore(c, snap).Ok?
    ensures var (r', h') := (Run(c, Restore(c, snap).value, ts).1, Run(c, h, ts).1);
            && ValidHistory(r') && ValidHistory(h') && Lineage(r', id) <= Lineage(h', id)
            && (FrontierIsRoots(h) ==> Lineage(r', id) == Lineage(h', id))
  {
    hide ValidHistory, Similar, Restore, Run, Lineage, CutOf, FrontierIsRoots, SortedKeys, LineageMap;
    var r := Restore(c, snap).value;
    RestoredIsSimilar(c, h, snap);
    RestoredIsCut(c, h, snap);
    RunKeepsCut(c, r, h, ts, FrontierIsRoots(h));
    CutLineage(Run(c, r, ts).1, Run(c, h, ts).1, id, FrontierIsRoots(h));
  }

  ghost predicate SameLineage(a: History, b: History, id: string) {
    ValidHistory(a) && ValidHistory(b) && Lineage(a, id) == Lineage(b, id)
  }

  /** The two registrars answer getLineage alike for every id after every later run if and only if no frontier
      version had a parent when the snapshot was taken. */
  lemma SameLineageExactly(c: Config, h: History, snap: Snapshot)
    requires Depicts(snap, c, h) && Restore(c, snap).Ok?
    ensures (forall ts, id :: SameLineage(Run(c, Restore(c, snap).value, ts).1, Run(c, h, ts).1, id)) <==> FrontierIsRoots(h)
  {
    hide ValidHistory, Restore, Run, Lineage, Depicts;
    var r := Restore(c, snap).value;
    if FrontierIsRoots(h) {
      forall ts, id
        ensures SameLineage(Run(c, r, ts).1, Run(c, h, ts).1, id)
      {
        RestoredLineageIsPrefix(c, h, snap, ts, id);
      }
    } else {
      var id :| id in h.latest && h.latest[id].parentKey.Some?;
      LineageIsCut(c, h, snap, id);
      NoRun(c, r);
      NoRun(c, h);
      assert !SameLineage(Run(c, r, []).1, Run(c, h, []).1, id);
    }
  }

  lemma NoRun(c: Config, h: History)
    ensures Run(c, h, []).1 == h
  {
  }

  lemma LineageIsCut(c: Config, h: History, snap: Snapshot, id: string)
    requires Depicts(snap, c, h) && Restore(c, snap).Ok? && id in h.latest && h.latest[id].parentKey.Some?
    ensures ValidHistory(h) && ValidHistory(Restore(c, snap).value) && Lineage(Restore(c, snap).value, id) != Lineage(h, id)
  {
    hide ValidHistory, Consistent, MakeVersionKey, Versions, SortedKeys, ParentOf;
    var r := Restore(c, snap).value;
    InjectedValid(snap);
    SnapshotKeys(c, h, snap);
    AllEntered(snap);
    LatestIsOk(r, id);
    LatestIsOk(h, id);
    VersionIsOk(h, h.latest[id].versionKey);
    assert r.latest[id].parentKey == None;
    assert |Lineage(r, id)| == 1;
    var p := h.latest[id].parentKey.value;
    assert |LineageFrom(h, p)| >= 1;
    assert |Lineage(h, id)| >= 2;
  }
}
