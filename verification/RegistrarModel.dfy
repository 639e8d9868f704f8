/** The registrar's invariants, verdicts, append-only version history, snapshots and restoration
    (packages/registrum/src/structural-registrar.ts, packages/registrum/src/invariants.ts,
    packages/registrum/src/persistence/rehydrator.ts, packages/registrum/src/persistence/snapshot.ts). */
module RegistrarModel {
  import opened Wrappers
  import opened Decimal

  /** A state as far as structure goes: `isRoot` is whether structure.isRoot is true; the rest is opaque. */
  datatype State = State(id: string, isRoot: bool, structure: string)

  datatype Transition = Transition(from: Option<string>, to: State)

  // ---------------------------------------------------------------- invariants

  datatype Scope = OfState | OfTransition | OfRegistration

  datatype InvariantInput =
    | StateInput(state: State)
    | TransitionInput(transition: Transition)
    | RegistrationInput(transition: Transition, registered: set<string>, currentOrderIndex: int)

  datatype Invariant = Invariant(id: string, scope: Scope, halts: bool, holds: InvariantInput -> bool)

  function StateOf(i: InvariantInput): State {
    match i case StateInput(s) => s case TransitionInput(t) => t.to case RegistrationInput(t, _, _) => t.to
  }

  function TransitionOf(i: InvariantInput): Option<Transition> {
    match i case StateInput(_) => None case TransitionInput(t) => Some(t) case RegistrationInput(t, _, _) => Some(t)
  }

  predicate IdentityImmutable(i: InvariantInput) {
    match TransitionOf(i) case None => true case Some(t) => t.from == None || t.to.id == t.from.value
  }

  predicate IdentityExplicit(i: InvariantInput) {
    |StateOf(i).id| > 0
  }

  predicate IdentityUnique(i: InvariantInput) {
    i.RegistrationInput? && i.transition.from == None ==> i.transition.to.id !in i.registered
  }

  predicate LineageExplicit(i: InvariantInput) {
    match TransitionOf(i) case None => true case Some(t) => t.to.isRoot <==> t.from == None
  }

  predicate ParentExists(i: InvariantInput) {
    i.RegistrationInput? && i.transition.from.Some? ==> i.transition.from.value in i.registered
  }

  predicate SingleParent(i: InvariantInput) {
    true
  }

  predicate OrderingTotal(i: InvariantInput) {
    i.RegistrationInput? ==> i.currentOrderIndex >= 0
  }

  predicate OrderingDeterministic(i: InvariantInput) {
    true
  }

  /** INITIAL_INVARIANTS. */
  function InitialInvariants(): seq<Invariant> {
    [ Invariant("state.identity.immutable", OfTransition, false, IdentityImmutable),
      Invariant("state.identity.explicit", OfState, false, IdentityExplicit),
      Invariant("state.identity.unique", OfRegistration, true, IdentityUnique),
      Invariant("state.lineage.explicit", OfTransition, false, LineageExplicit),
      Invariant("state.lineage.parent_exists", OfRegistration, false, ParentExists),
      Invariant("state.lineage.single_parent", OfTransition, false, SingleParent),
      Invariant("state.lineage.continuous", OfRegistration, true, ParentExists),
      Invariant("ordering.total", OfRegistration, true, OrderingTotal),
      Invariant("ordering.deterministic", OfRegistration, true, OrderingDeterministic),
      Invariant("ordering.monotonic", OfRegistration, false, OrderingTotal),
      Invariant("ordering.non_semantic", OfRegistration, true, OrderingDeterministic) ]
  }

  // ---------------------------------------------------------------- verdicts

  datatype Violation = Violation(invariantId: string, halts: bool)

  datatype Kind = Accepted | Rejected | Halted

  /** What one engine says of a transition, without changing anything. */
  datatype Verdict = Verdict(violations: seq<Violation>, applied: seq<string>) {
    function Kind(): Kind {
      if violations == [] then Accepted
      else if exists k :: 0 <= k < |violations| && violations[k].halts then Halted
      else Rejected
    }

    function Ids(): multiset<string> {
      multiset(seq(|violations|, k requires 0 <= k < |violations| => violations[k].invariantId))
    }
  }

  /** The registry engine, left open: any verdict that depends on the transition, the registered ids and
      the order index. */
  type Engine = (Transition, set<string>, int) -> Verdict

  function InputFor(inv: Invariant, t: Transition, registered: set<string>, index: int): InvariantInput {
    match inv.scope
    case OfState => StateInput(t.to)
    case OfTransition => TransitionInput(t)
    case OfRegistration => RegistrationInput(t, registered, index)
  }

  /** The legacy engine: every invariant on the input its scope asks for. */
  function LegacyVerdict(invariants: seq<Invariant>, t: Transition, registered: set<string>, index: int): Verdict {
    if invariants == [] then Verdict([], [])
    else
      var before := LegacyVerdict(invariants[..|invariants| - 1], t, registered, index);
      var inv := invariants[|invariants| - 1];
      var failed := if inv.holds(InputFor(inv, t, registered, index)) then [] else [Violation(inv.id, inv.halts)];
      Verdict(before.violations + failed, before.applied + [inv.id])
  }

  lemma {:induction false} LegacyAccepts(invariants: seq<Invariant>, t: Transition, registered: set<string>, index: int)
    ensures LegacyVerdict(invariants, t, registered, index).violations == []
            <==> forall k :: 0 <= k < |invariants| ==> invariants[k].holds(InputFor(invariants[k], t, registered, index))
  {
    if invariants != [] {
      LegacyAccepts(invariants[..|invariants| - 1], t, registered, index);
      assert invariants == invariants[..|invariants| - 1] + [invariants[|invariants| - 1]];
    }
  }

  /** What the initial invariants together allow: a new root, or a new version of a registered state. */
  predicate Admissible(t: Transition, registered: set<string>) {
    && t.to.id != "" && (t.to.isRoot <==> t.from == None)
    && (match t.from case None => t.to.id !in registered case Some(id) => t.to.id == id && id in registered)
  }

  lemma InitialInvariantsAdmit(t: Transition, registered: set<string>, index: int)
    requires index >= 0
    ensures LegacyVerdict(InitialInvariants(), t, registered, index).violations == [] <==> Admissible(t, registered)
  {
    hide LegacyVerdict;
    var invs := InitialInvariants();
    LegacyAccepts(invs, t, registered, index);
    var r := RegistrationInput(t, registered, index);
    assert invs[0].holds(InputFor(invs[0], t, registered, index)) == IdentityImmutable(TransitionInput(t));
    assert invs[1].holds(InputFor(invs[1], t, registered, index)) == IdentityExplicit(StateInput(t.to));
    assert invs[2].holds(InputFor(invs[2], t, registered, index)) == IdentityUnique(r);
    assert invs[3].holds(InputFor(invs[3], t, registered, index)) == LineageExplicit(TransitionInput(t));
    assert invs[4].holds(InputFor(invs[4], t, registered, index)) == ParentExists(r);
  }

  // ---------------------------------------------------------------- configuration

  datatype Mode = Legacy | Registry | Dual

  /** `hash` is the constitution's fingerprint: the legacy id list or the registry's content hash. */
  datatype Config = Config(mode: Mode, invariants: seq<Invariant>, registry: Engine, hash: string)

  predicate SameVerdict(a: Verdict, b: Verdict) {
    a.Kind() == b.Kind() && a.Ids() == b.Ids()
  }

  /** The verdict the mode goes by; None when two witnesses diverge. */
  function Judge(c: Config, t: Transition, registered: set<string>, index: int): Option<Verdict> {
    var legacy := LegacyVerdict(c.invariants, t, registered, index);
    match c.mode
    case Legacy => Some(legacy)
    case Registry => Some(c.registry(t, registered, index))
    case Dual =>
      var registry := c.registry(t, registered, index);
      if SameVerdict(registry, legacy) then Some(registry) else None
  }

  // ---------------------------------------------------------------- the version history

  datatype Version = Version(id: string, parentId: Option<string>, orderIndex: nat, versionKey: string, parentKey: Option<string>)

  /** versionsByKey, latestById and currentOrderIndex. */
  datatype History = History(versions: map<string, Version>, latest: map<string, Version>, next: nat)

  datatype Answer =
    | Registered(stateId: string, orderIndex: nat, applied: seq<string>)
    | Refused(violations: seq<Violation>)
    | ParityHalt
    | AppendOnlyViolation(versionKey: string)

  function MakeVersionKey(id: string, index: nat): string {
    id + ['#'] + Show(index)
  }

  function ParentKey(h: History, from: Option<string>): Option<string> {
    if from.Some? && from.value in h.latest then Some(h.latest[from.value].versionKey) else None
  }

  function NewVersion(h: History, t: Transition): Version {
    Version(t.to.id, t.from, h.next, MakeVersionKey(t.to.id, h.next), ParentKey(h, t.from))
  }

  function WithVersion(h: History, v: Version): History {
    History(h.versions[v.versionKey := v], h.latest[v.id := v], h.next + 1)
  }

  /** register: the answer and the history afterwards. The counter moves before the append-only guard. */
  function Register(c: Config, h: History, t: Transition): (Answer, History) {
    match Judge(c, t, h.latest.Keys, h.next)
    case None => (ParityHalt, h)
    case Some(v) =>
      if v.violations != [] then (Refused(v.violations), h)
      else
        var version := NewVersion(h, t);
        if version.versionKey in h.versions then (AppendOnlyViolation(version.versionKey), h.(next := h.next + 1))
        else (Registered(t.to.id, h.next, v.applied), WithVersion(h, version))
  }

  function Run(c: Config, h: History, ts: seq<Transition>): (r: (seq<Answer>, History))
    ensures |r.0| == |ts|
  {
    if ts == [] then ([], h)
    else
      var (answers, before) := Run(c, h, ts[..|ts| - 1]);
      var (answer, after) := Register(c, before, ts[|ts| - 1]);
      (answers + [answer], after)
  }

  const EMPTY := History(map[], map[], 0)

  // ---------------------------------------------------------------- what every history keeps

  ghost predicate VersionOk(h: History, key: string)
    requires key in h.versions
  {
    var v := h.versions[key];
    && v.versionKey == key == MakeVersionKey(v.id, v.orderIndex) && v.orderIndex < h.next
    && v.id in h.latest && v.orderIndex <= h.latest[v.id].orderIndex
    && (v.parentKey.Some? ==> v.parentKey.value in h.versions && h.versions[v.parentKey.value].orderIndex < v.orderIndex)
    && (v.parentKey.Some? ==> v.parentId == Some(h.versions[v.parentKey.value].id))
  }

  ghost predicate LatestOk(h: History, id: string)
    requires id in h.latest
  {
    var v := h.latest[id];
    v.id == id && v.versionKey in h.versions && h.versions[v.versionKey] == v
  }

  ghost predicate OneVersionPerIndex(h: History) {
    forall j, k :: j in h.versions && k in h.versions && h.versions[j].orderIndex == h.versions[k].orderIndex ==> j == k
  }

  /** Every accepted version sits under its own key, links to an earlier version, and has an index of its
      own below the counter; the frontier holds the last version of each id. */
  ghost predicate ValidHistory(h: History) {
    && (forall k :: k in h.versions ==> VersionOk(h, k))
    && (forall id :: id in h.latest ==> LatestOk(h, id))
    && OneVersionPerIndex(h)
    && (h.next == 0 <==> h.latest == map[])
    && (h.next > 0 ==> exists id :: id in h.latest && h.latest[id].orderIndex == h.next - 1)
  }

  /** Every index below the counter has been used. */
  ghost predicate NoGaps(h: History) {
    forall i :: 0 <= i < h.next ==> Used(h, i)
  }

  ghost predicate Used(h: History, i: nat) {
    exists k :: k in h.versions && h.versions[k].orderIndex == i
  }

  /** The next version key is new, so the append-only guard cannot fire. */
  lemma KeyIsFresh(h: History, id: string)
    requires ValidHistory(h)
    ensures MakeVersionKey(id, h.next) !in h.versions
  {
    var key := MakeVersionKey(id, h.next);
    if key in h.versions {
      assert VersionOk(h, key);
      TaggedNumberInjective(id, h.next, h.versions[key].id, h.versions[key].orderIndex, '#');
      assert false;
    }
  }

  lemma AcceptKeepsValid(h: History, t: Transition)
    requires ValidHistory(h)
    ensures ValidHistory(WithVersion(h, NewVersion(h, t)))
  {
    hide MakeVersionKey, VersionOk, LatestOk, OneVersionPerIndex;
    var v := NewVersion(h, t);
    var h' := WithVersion(h, v);
    KeyIsFresh(h, t.to.id);
    forall k | k in h'.versions
      ensures VersionOk(h', k)
    {
      VersionStaysOk(h, t, k);
    }
    forall id | id in h'.latest
      ensures LatestOk(h', id)
    {
      LatestStaysOk(h, t, id);
    }
    IndexStaysUnique(h, t);
    assert v.id in h'.latest && h'.latest[v.id].orderIndex == h'.next - 1;
    assert h'.latest != map[];
  }

  lemma VersionStaysOk(h: History, t: Transition, k: string)
    requires ValidHistory(h) && k in WithVersion(h, NewVersion(h, t)).versions && NewVersion(h, t).versionKey !in h.versions
    ensures VersionOk(WithVersion(h, NewVersion(h, t)), k)
  {
    hide MakeVersionKey, OneVersionPerIndex;
    if k in h.versions {
      assert VersionOk(h, k);
    } else if t.from.Some? && t.from.value in h.latest {
      assert LatestOk(h, t.from.value);
      assert VersionOk(h, h.latest[t.from.value].versionKey);
    }
  }

  lemma LatestStaysOk(h: History, t: Transition, id: string)
    requires ValidHistory(h) && id in WithVersion(h, NewVersion(h, t)).latest && NewVersion(h, t).versionKey !in h.versions
    ensures LatestOk(WithVersion(h, NewVersion(h, t)), id)
  {
    hide MakeVersionKey, OneVersionPerIndex, VersionOk;
    if id != t.to.id {
      assert LatestOk(h, id);
    }
  }

  lemma IndexStaysUnique(h: History, t: Transition)
    requires ValidHistory(h)
    ensures OneVersionPerIndex(WithVersion(h, NewVersion(h, t)))
  {
    hide MakeVersionKey, LatestOk;
    forall k | k in h.versions
      ensures h.versions[k].orderIndex < h.next
    {
      assert VersionOk(h, k);
    }
  }

  lemma AcceptLeavesNoGap(h: History, t: Transition)
    requires ValidHistory(h) && NoGaps(h)
    ensures NoGaps(WithVersion(h, NewVersion(h, t)))
  {
    hide MakeVersionKey, ValidHistory;
    var v := NewVersion(h, t);
    var h' := WithVersion(h, v);
    KeyIsFresh(h, t.to.id);
    forall i | 0 <= i < h'.next
      ensures Used(h', i)
    {
      if i < h.next {
        assert Used(h, i);
        var k :| k in h.versions && h.versions[k].orderIndex == i;
        assert k in h'.versions && h'.versions[k].orderIndex == i;
      } else {
        assert v.versionKey in h'.versions && h'.versions[v.versionKey].orderIndex == i;
      }
    }
  }
}
