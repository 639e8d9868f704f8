/** Properties of whole registrar runs: order indices, append-only keys, lineage, and what dual witnesses may
    change (packages/registrum/src/structural-registrar.ts). */
module RegistrarRuns {
  import opened Wrappers
  import opened RegistrarModel

  /** How many transitions were accepted. */
  function AcceptedCount(answers: seq<Answer>): nat {
    if answers == [] then 0
    else AcceptedCount(answers[..|answers| - 1]) + if answers[|answers| - 1].Registered? then 1 else 0
  }

  /** Accepted transitions get consecutive indices, in order; nothing else uses one up. */
  ghost predicate Consecutive(answers: seq<Answer>, first: nat) {
    forall k :: 0 <= k < |answers| ==>
      && !answers[k].AppendOnlyViolation?
      && (answers[k].Registered? ==> answers[k].orderIndex == first + AcceptedCount(answers[..k]))
  }

  lemma RegisterKeepsValid(c: Config, h: History, t: Transition)
    requires ValidHistory(h)
    ensures var (answer, h') := Register(c, h, t);
            && ValidHistory(h') && !answer.AppendOnlyViolation? && (NoGaps(h) ==> NoGaps(h'))
            && (answer.Registered? ==> answer.orderIndex == h.next && h'.next == h.next + 1 && h' == WithVersion(h, NewVersion(h, t)))
            && (!answer.Registered? ==> h' == h)
  {
    hide ValidHistory, NoGaps, MakeVersionKey, Judge;
    AcceptKeepsValid(h, t);
    KeyIsFresh(h, t.to.id);
    if NoGaps(h) {
      AcceptLeavesNoGap(h, t);
    }
  }

  /** In every run, whatever the engines answer: the history stays valid and without gaps, indices are handed
      out consecutively, and the append-only guard never fires. */
  lemma {:induction false} RunKeepsValid(c: Config, h: History, ts: seq<Transition>)
    requires ValidHistory(h)
    ensures var (answers, h') := Run(c, h, ts);
            && ValidHistory(h') && (NoGaps(h) ==> NoGaps(h'))
            && Consecutive(answers, h.next) && h'.next == h.next + AcceptedCount(answers)
  {
    hide ValidHistory, NoGaps, Register, Consecutive, AcceptedCount;
    if ts == [] {
      assert Consecutive([], h.next) && AcceptedCount([]) == 0 by { NothingConsecutive(h.next); }
    } else {
      var n := |ts| - 1;
      RunKeepsValid(c, h, ts[..n]);
      var (answers, before) := Run(c, h, ts[..n]);
      var (answer, after) := Register(c, before, ts[n]);
      RegisterKeepsValid(c, before, ts[n]);
      ConsecutiveSnoc(answers, h.next, answer);
    }
  }

  lemma NothingConsecutive(first: nat)
    ensures Consecutive([], first) && AcceptedCount([]) == 0
  {
  }

  lemma ConsecutiveSnoc(answers: seq<Answer>, first: nat, answer: Answer)
    requires Consecutive(answers, first) && !answer.AppendOnlyViolation?
    requires answer.Registered? ==> answer.orderIndex == first + AcceptedCount(answers)
    ensures Consecutive(answers + [answer], first)
    ensures AcceptedCount(answers + [answer]) == AcceptedCount(answers) + if answer.Registered? then 1 else 0
  {
    var all := answers + [answer];
    assert all[..|answers|] == answers;
    forall k | 0 <= k < |all|
      ensures !all[k].AppendOnlyViolation? && (all[k].Registered? ==> all[k].orderIndex == first + AcceptedCount(all[..k]))
    {
      if k < |answers| {
        assert all[..k] == answers[..k] && all[k] == answers[k];
      }
    }
  }

  lemma EmptyIsValid()
    ensures ValidHistory(EMPTY) && NoGaps(EMPTY)
  {
  }

  /** So from an empty registrar the indices of the n accepted versions are 0..n-1, each used exactly once. */
  lemma IndicesAreExact(c: Config, ts: seq<Transition>)
    ensures var (answers, h) := Run(c, EMPTY, ts);
            && h.next == AcceptedCount(answers)
            && (forall k :: k in h.versions ==> h.versions[k].orderIndex < h.next)
            && (forall i :: 0 <= i < h.next ==> Used(h, i)) && OneVersionPerIndex(h)
  {
    hide Run, Register;
    EmptyIsValid();
    RunKeepsValid(c, EMPTY, ts);
    var (answers, h) := Run(c, EMPTY, ts);
    forall k | k in h.versions
      ensures h.versions[k].orderIndex < h.next
    {
      assert VersionOk(h, k);
    }
  }

  // ---------------------------------------------------------------- lineage

  /** The ids from a version back along its parent links. */
  function LineageFrom(h: History, key: string): seq<string>
    requires ValidHistory(h) && key in h.versions
    decreases h.versions[key].orderIndex
  {
    var v := h.versions[key];
    assert VersionOk(h, key);
    [v.id] + if v.parentKey.Some? then LineageFrom(h, v.parentKey.value) else []
  }

  function Lineage(h: History, id: string): seq<string>
    requires ValidHistory(h)
  {
    if id in h.latest then
      assert LatestOk(h, id);
      LineageFrom(h, h.latest[id].versionKey)
    else []
  }

  ghost predicate ParentIsPrior(h: History, k: string)
    requires k in h.versions
  {
    var v := h.versions[k];
    match v.parentKey
    case None => forall j :: j in h.versions && h.versions[j].id == v.id ==> v.orderIndex <= h.versions[j].orderIndex
    case Some(p) =>
      && p in h.versions && h.versions[p].id == v.id && h.versions[p].orderIndex < v.orderIndex
      && forall j :: j in h.versions && h.versions[j].id == v.id && h.versions[j].orderIndex < v.orderIndex
                     ==> h.versions[j].orderIndex <= h.versions[p].orderIndex
  }

  /** Each version's parent is the previous version of the same id; only first versions have none. */
  ghost predicate SameIdChains(h: History) {
    forall k :: k in h.versions ==> ParentIsPrior(h, k)
  }

  /** A later version disturbs no earlier parent link. */
  lemma OldParentStays(h: History, v: Version, k: string)
    requires k in h.versions && ParentIsPrior(h, k) && v.versionKey !in h.versions
    requires forall j :: j in h.versions ==> h.versions[j].orderIndex < v.orderIndex
    ensures ParentIsPrior(WithVersion(h, v), k)
  {
  }

  /** A root of a new id has no earlier version; a new version links to the latest one. */
  lemma NewParentIsPrior(h: History, v: Version)
    requires v.versionKey !in h.versions && forall j :: j in h.versions ==> h.versions[j].orderIndex < v.orderIndex
    requires forall j :: j in h.versions && h.versions[j].id == v.id ==> v.id in h.latest && h.versions[j].orderIndex <= h.latest[v.id].orderIndex
    requires v.id in h.latest ==> LatestOk(h, v.id)
    requires v.parentKey == if v.id in h.latest then Some(h.latest[v.id].versionKey) else None
    ensures ParentIsPrior(WithVersion(h, v), v.versionKey)
  {
  }

  lemma AdmissibleKeepsChains(h: History, t: Transition)
    requires ValidHistory(h) && SameIdChains(h) && Admissible(t, h.latest.Keys)
    ensures SameIdChains(WithVersion(h, NewVersion(h, t)))
  {
    hide MakeVersionKey, OneVersionPerIndex, ParentIsPrior;
    var v := NewVersion(h, t);
    KeyIsFresh(h, t.to.id);
    forall j | j in h.versions
      ensures h.versions[j].orderIndex < h.next && h.versions[j].id in h.latest
      ensures h.versions[j].orderIndex <= h.latest[h.versions[j].id].orderIndex
    {
      assert VersionOk(h, j);
    }
    assert v.id in h.latest ==> LatestOk(h, v.id);
    forall k | k in WithVersion(h, v).versions
      ensures ParentIsPrior(WithVersion(h, v), k)
    {
      if k in h.versions {
        OldParentStays(h, v, k);
      } else {
        NewParentIsPrior(h, v);
      }
    }
  }

  /** The initial invariants act as a witness: alone, or as the second engine of dual mode. */
  ghost predicate Witnessed(c: Config) {
    c.mode != Registry && c.invariants == InitialInvariants()
  }

  /** Whatever the registry engine says, in dual mode nothing gets past the initial invariants. */
  lemma AcceptedIsAdmissible(c: Config, h: History, t: Transition)
    requires Witnessed(c) && ValidHistory(h) && Register(c, h, t).0.Registered?
    ensures Admissible(t, h.latest.Keys)
  {
    hide LegacyVerdict, Admissible, ValidHistory, InitialInvariants;
    InitialInvariantsAdmit(t, h.latest.Keys, h.next);
  }

  lemma {:induction false} RunKeepsChains(c: Config, h: History, ts: seq<Transition>)
    requires Witnessed(c) && ValidHistory(h) && SameIdChains(h)
    ensures SameIdChains(Run(c, h, ts).1)
  {
    hide ValidHistory, SameIdChains, Register, Witnessed, Admissible;
    if ts != [] {
      var n := |ts| - 1;
      RunKeepsChains(c, h, ts[..n]);
      RunKeepsValid(c, h, ts[..n]);
      var before := Run(c, h, ts[..n]).1;
      RegisterKeepsValid(c, before, ts[n]);
      if Register(c, before, ts[n]).0.Registered? {
        AcceptedIsAdmissible(c, before, ts[n]);
        AdmissibleKeepsChains(before, ts[n]);
      }
    }
  }

  /** The versions of an id up to an index. */
  ghost function VersionsUpTo(h: History, id: string, index: int): set<string> {
    set k | k in h.versions && h.versions[k].id == id && h.versions[k].orderIndex <= index
  }

  lemma {:induction false} LineageCounts(h: History, key: string)
    requires ValidHistory(h) && SameIdChains(h) && key in h.versions
    ensures |LineageFrom(h, key)| == |VersionsUpTo(h, h.versions[key].id, h.versions[key].orderIndex)|
    ensures forall k :: 0 <= k < |LineageFrom(h, key)| ==> LineageFrom(h, key)[k] == h.versions[key].id
    decreases h.versions[key].orderIndex
  {
    hide ValidHistory, VersionsUpTo, ParentIsPrior;
    VersionsUpToNext(h, key);
    if h.versions[key].parentKey.Some? {
      LineageCounts(h, h.versions[key].parentKey.value);
    }
  }

  /** The versions of an id up to one are that one and those up to its parent. */
  lemma VersionsUpToNext(h: History, key: string)
    requires ValidHistory(h) && SameIdChains(h) && key in h.versions
    ensures var v := h.versions[key];
            match v.parentKey
            case None => VersionsUpTo(h, v.id, v.orderIndex) == {key}
            case Some(p) =>
              && p in h.versions && h.versions[p].id == v.id && h.versions[p].orderIndex < v.orderIndex
              && key !in VersionsUpTo(h, v.id, h.versions[p].orderIndex)
              && VersionsUpTo(h, v.id, v.orderIndex) == VersionsUpTo(h, v.id, h.versions[p].orderIndex) + {key}
  {
    hide ValidHistory;
    assert ParentIsPrior(h, key);
    OnlyVersionAt(h, key);
  }

  lemma OnlyVersionAt(h: History, key: string)
    requires ValidHistory(h) && key in h.versions
    ensures forall j :: j in h.versions && h.versions[j].orderIndex == h.versions[key].orderIndex ==> j == key
  {
  }

  ghost function VersionsOf(h: History, id: string): set<string> {
    set k | k in h.versions && h.versions[k].id == id
  }

  lemma VersionsUpToLatest(h: History, id: string)
    requires ValidHistory(h)
    ensures VersionsOf(h, id) == if id in h.latest then VersionsUpTo(h, id, h.latest[id].orderIndex) else {}
  {
    forall k | k in VersionsOf(h, id)
      ensures id in h.latest && h.versions[k].orderIndex <= h.latest[id].orderIndex
    {
      assert VersionOk(h, k);
    }
  }

  lemma LineageCountsAll(h: History, id: string)
    requires ValidHistory(h) && SameIdChains(h)
    ensures |Lineage(h, id)| == |VersionsOf(h, id)|
    ensures forall k :: 0 <= k < |Lineage(h, id)| ==> Lineage(h, id)[k] == id
  {
    hide VersionsOf, VersionsUpTo, LineageFrom, SameIdChains;
    VersionsUpToLatest(h, id);
    if id in h.latest {
      assert LatestOk(h, id);
      LineageCounts(h, h.latest[id].versionKey);
    }
  }

  /** Under the initial invariants the lineage of an id has exactly one entry per accepted version of it. */
  lemma LineageHasEveryVersion(c: Config, ts: seq<Transition>, id: string)
    requires Witnessed(c)
    ensures var h := Run(c, EMPTY, ts).1;
            && ValidHistory(h) && |Lineage(h, id)| == |VersionsOf(h, id)|
            && forall k :: 0 <= k < |Lineage(h, id)| ==> Lineage(h, id)[k] == id
  {
    hide Run, Witnessed, ValidHistory, Lineage, VersionsOf;
    EmptyIsValid();
    RunKeepsValid(c, EMPTY, ts);
    RunKeepsChains(c, EMPTY, ts);
    LineageCountsAll(Run(c, EMPTY, ts).1, id);
  }

  // ---------------------------------------------------------------- dual witnesses

  /** A diverging registry engine halts the operation and changes no history. */
  lemma DivergenceChangesNothing(c: Config, h: History, t: Transition)
    requires c.mode == Dual
    ensures var registry, legacy := c.registry(t, h.latest.Keys, h.next), LegacyVerdict(c.invariants, t, h.latest.Keys, h.next);
            !SameVerdict(registry, legacy) <==> Register(c, h, t) == (ParityHalt, h)
  {
    hide LegacyVerdict, SameVerdict, MakeVersionKey;
  }

  lemma {:induction false} AnswersOfPrefix(c: Config, h: History, ts: seq<Transition>, k: nat)
    requires k <= |ts|
    ensures Run(c, h, ts).0[..k] == Run(c, h, ts[..k]).0
  {
    hide Register;
    if k < |ts| {
      var n := |ts| - 1;
      AnswersOfPrefix(c, h, ts[..n], k);
      assert ts[..n][..k] == ts[..k];
      assert Run(c, h, ts).0[..n] == Run(c, h, ts[..n]).0;
    } else {
      assert ts[..k] == ts;
    }
  }

  /** In every dual run the k-th transition is halted on parity exactly when the two engines diverge on it, in
      the state that the transitions before it left, and then that state stays. */
  lemma ParityHaltsExactly(c: Config, h: History, ts: seq<Transition>, k: nat)
    requires c.mode == Dual && k < |ts|
    ensures var before := Run(c, h, ts[..k]).1;
            var registry := c.registry(ts[k], before.latest.Keys, before.next);
            var legacy := LegacyVerdict(c.invariants, ts[k], before.latest.Keys, before.next);
            && (Run(c, h, ts).0[k] == ParityHalt <==> !SameVerdict(registry, legacy))
            && (Run(c, h, ts).0[k] == ParityHalt ==> Run(c, h, ts[..k + 1]).1 == before)
  {
    hide Register, SameVerdict, LegacyVerdict;
    var before := Run(c, h, ts[..k]).1;
    AnswersOfPrefix(c, h, ts, k + 1);
    assert ts[..k + 1][..k] == ts[..k];
    assert Run(c, h, ts).0[k] == Register(c, before, ts[k]).0;
    DivergenceChangesNothing(c, before, ts[k]);
    OnlyDivergenceHalts(c, before, ts[k]);
  }

  lemma OnlyDivergenceHalts(c: Config, h: History, t: Transition)
    ensures Register(c, h, t).0 == ParityHalt ==> Register(c, h, t) == (ParityHalt, h)
  {
    hide Judge, MakeVersionKey;
  }

  /** The transitions that were accepted. */
  function AcceptedOnes(answers: seq<Answer>, ts: seq<Transition>): seq<Transition>
    requires |answers| == |ts|
  {
    if ts == [] then []
    else AcceptedOnes(answers[..|ts| - 1], ts[..|ts| - 1]) + if answers[|ts| - 1].Registered? then [ts[|ts| - 1]] else []
  }

  /** Over every dual run the history is the one the legacy witness alone would have built from just the
      accepted transitions: the registry engine can withhold, never add or alter. */
  lemma {:induction false} DualHistoryIsLegacyHistory(c: Config, h: History, ts: seq<Transition>)
    requires c.mode == Dual && ValidHistory(h)
    ensures var (answers, h') := Run(c, h, ts);
            Run(c.(mode := Legacy), h, AcceptedOnes(answers, ts)).1 == h'
  {
    hide ValidHistory, Register;
    if ts != [] {
      var n := |ts| - 1;
      var (answers, before) := Run(c, h, ts[..n]);
      var (answer, after) := Register(c, before, ts[n]);
      DualHistoryIsLegacyHistory(c, h, ts[..n]);
      RunKeepsValid(c, h, ts[..n]);
      RegisterKeepsValid(c, before, ts[n]);
      var kept := AcceptedOnes(answers, ts[..n]);
      assert (answers + [answer])[..n] == answers && kept + [] == kept;
      if answer.Registered? {
        DualAcceptIsLegacyAccept(c, before, ts[n]);
        assert (kept + [ts[n]])[..|kept|] == kept;
      }
    }
  }

  lemma DualAcceptIsLegacyAccept(c: Config, h: History, t: Transition)
    requires c.mode == Dual && Register(c, h, t).0.Registered?
    ensures Register(c.(mode := Legacy), h, t).1 == Register(c, h, t).1
  {
    hide LegacyVerdict, MakeVersionKey;
  }
}
