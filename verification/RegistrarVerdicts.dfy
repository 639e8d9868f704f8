/** What a refusal says: which invariants it names, in which order and with which failure mode, for any list of
    invariants and for the initial ones defect by defect (packages/registrum/src/structural-registrar.ts,
    packages/registrum/src/invariants.ts). */
module RegistrarVerdicts {
  import opened Wrappers
  import opened Grouping
  import opened RegistrarModel

  /** The invariant does not hold of the input its scope asks for. */
  predicate Broken(inv: Invariant, t: Transition, registered: set<string>, index: int) {
    match inv.scope
    case OfState => !inv.holds(StateInput(t.to))
    case OfTransition => !inv.holds(TransitionInput(t))
    case OfRegistration => !inv.holds(RegistrationInput(t, registered, index))
  }

  /** The positions of the broken invariants, in order. */
  ghost predicate BrokenAt(invariants: seq<Invariant>, t: Transition, registered: set<string>, index: int, ks: seq<nat>) {
    && (forall n :: 0 <= n < |ks| ==> ks[n] < |invariants|)
    && (forall m, n :: 0 <= m < n < |ks| ==> ks[m] < ks[n])
    && (forall k: nat :: k in ks <==> k < |invariants| && Broken(invariants[k], t, registered, index))
  }

  /** These violations are exactly the broken invariants: each once, in order, with its own failure mode. */
  ghost predicate Names(invariants: seq<Invariant>, t: Transition, registered: set<string>, index: int, violations: seq<Violation>, ks: seq<nat>) {
    && BrokenAt(invariants, t, registered, index, ks) && |violations| == |ks|
    && forall n :: 0 <= n < |ks| ==> violations[n] == Violation(invariants[ks[n]].id, invariants[ks[n]].halts)
  }

  /** What the legacy engine says of a transition. */
  lemma {:induction false} VerdictNames(invariants: seq<Invariant>, t: Transition, registered: set<string>, index: int) returns (ks: seq<nat>)
    ensures Names(invariants, t, registered, index, LegacyVerdict(invariants, t, registered, index).violations, ks)
  {
    if invariants == [] {
      ks := [];
    } else {
      var n := |invariants| - 1;
      var before := VerdictNames(invariants[..n], t, registered, index);
      ks := before + if Broken(invariants[n], t, registered, index) then [n] else [];
      assert forall k: nat :: k in ks <==> k in before || (k == n && Broken(invariants[n], t, registered, index));
    }
  }

  lemma {:induction false} AppliedIsAll(invariants: seq<Invariant>, t: Transition, registered: set<string>, index: int)
    ensures var applied := LegacyVerdict(invariants, t, registered, index).applied;
            |applied| == |invariants| && forall k :: 0 <= k < |invariants| ==> applied[k] == invariants[k].id
  {
    if invariants != [] {
      AppliedIsAll(invariants[..|invariants| - 1], t, registered, index);
    }
  }

  /** A verdict is accepting if no invariant is broken, halting exactly if a broken one halts, and else
      rejecting; whatever it is, all invariants were applied. */
  lemma KindExactly(invariants: seq<Invariant>, t: Transition, registered: set<string>, index: int)
    ensures var v := LegacyVerdict(invariants, t, registered, index);
            && (v.Kind() == Accepted <==> forall k :: 0 <= k < |invariants| ==> !Broken(invariants[k], t, registered, index))
            && (v.Kind() == Halted <==> exists k :: 0 <= k < |invariants| && Broken(invariants[k], t, registered, index) && invariants[k].halts)
  {
    hide LegacyVerdict, Broken;
    var ks := VerdictNames(invariants, t, registered, index);
    var violations := LegacyVerdict(invariants, t, registered, index).violations;
    assert violations != [] ==> ks[0] in ks;
    if k :| 0 <= k < |invariants| && Broken(invariants[k], t, registered, index) && invariants[k].halts {
      assert k in ks;
      var n :| 0 <= n < |ks| && ks[n] == k;
      assert violations[n].halts;
    }
    if n :| 0 <= n < |violations| && violations[n].halts {
      assert ks[n] in ks;
      assert Broken(invariants[ks[n]], t, registered, index) && invariants[ks[n]].halts;
    }
    if k :| 0 <= k < |invariants| && Broken(invariants[k], t, registered, index) {
      assert k in ks;
    }
  }

  /** What registering answers under the legacy engine: a refusal that names exactly the broken invariants, or,
      if none is broken, an acceptance that lists them all. */
  lemma RegisterNames(c: Config, h: History, t: Transition) returns (ks: seq<nat>)
    requires c.mode == Legacy && ValidHistory(h)
    ensures var answer := Register(c, h, t).0;
            match answer
            case Refused(violations) => violations != [] && Names(c.invariants, t, h.latest.Keys, h.next, violations, ks)
            case Registered(id, index, applied) =>
              && BrokenAt(c.invariants, t, h.latest.Keys, h.next, []) && id == t.to.id && index == h.next
              && |applied| == |c.invariants| && forall k :: 0 <= k < |applied| ==> applied[k] == c.invariants[k].id
            case _ => false
  {
    hide LegacyVerdict, ValidHistory, MakeVersionKey, Broken;
    ks := VerdictNames(c.invariants, t, h.latest.Keys, h.next);
    AppliedIsAll(c.invariants, t, h.latest.Keys, h.next);
    KeyIsFresh(h, t.to.id);
    if Register(c, h, t).0.Registered? {
      assert ks == [];
    }
  }

  /** A dual refusal comes with the legacy engine's ids, as often, and its kind. */
  lemma DualRefusalAgrees(c: Config, h: History, t: Transition)
    requires c.mode == Dual && Register(c, h, t).0.Refused?
    ensures var legacy := LegacyVerdict(c.invariants, t, h.latest.Keys, h.next);
            var refused := Verdict(Register(c, h, t).0.violations, []);
            refused.Kind() == legacy.Kind() && refused.Ids() == legacy.Ids()
  {
    hide LegacyVerdict, MakeVersionKey;
    var registry := c.registry(t, h.latest.Keys, h.next);
    SameViolations(registry, Verdict(Register(c, h, t).0.violations, []));
  }

  lemma SameViolations(a: Verdict, b: Verdict)
    requires a.violations == b.violations
    ensures a.Kind() == b.Kind() && a.Ids() == b.Ids()
  {
  }

  // ---------------------------------------------------------------- the initial invariants

  function If(broken: bool, id: string, halts: bool): seq<Violation> {
    if broken then [Violation(id, halts)] else []
  }

  /** The root id is taken. */
  predicate Taken(t: Transition, registered: set<string>) {
    t.from == None && t.to.id in registered
  }

  /** The parent is not registered. */
  predicate NoParent(t: Transition, registered: set<string>) {
    t.from.Some? && t.from.value !in registered
  }

  lemma LegacyMore(a: seq<Invariant>, inv: Invariant, b: seq<Invariant>, t: Transition, registered: set<string>, index: int, broken: bool)
    requires b == a + [inv] && Broken(inv, t, registered, index) == broken
    ensures LegacyVerdict(b, t, registered, index).violations == LegacyVerdict(a, t, registered, index).violations + If(broken, inv.id, inv.halts)
  {
    assert b[..|a|] == a;
  }

  lemma LegacySame(a: seq<Invariant>, inv: Invariant, b: seq<Invariant>, t: Transition, registered: set<string>, index: int)
    requires b == a + [inv] && !Broken(inv, t, registered, index)
    ensures LegacyVerdict(b, t, registered, index).violations == LegacyVerdict(a, t, registered, index).violations
  {
    LegacyMore(a, inv, b, t, registered, index, false);
  }

  /** Which of the initial invariants a transition breaks: one or two for each of its defects. */
  lemma InitialViolations(t: Transition, registered: set<string>, index: int)
    requires index >= 0
    ensures LegacyVerdict(InitialInvariants(), t, registered, index).violations
         == If(t.from.Some? && t.to.id != t.from.value, "state.identity.immutable", false)
            + If(t.to.id == "", "state.identity.explicit", false)
            + If(Taken(t, registered), "state.identity.unique", true)
            + If(t.to.isRoot != (t.from == None), "state.lineage.explicit", false)
            + If(NoParent(t, registered), "state.lineage.parent_exists", false)
            + If(NoParent(t, registered), "state.lineage.continuous", true)
  {
    hide LegacyVerdict, If, Broken;
    FirstBroken(t, registered, index);
    OtherBroken(t, registered, index);
    var invs := InitialInvariants();
    LegacySame(invs[..9], invs[9], invs[..10], t, registered, index);
    LegacySame(invs[..10], invs[10], invs, t, registered, index);
    LegacySame(invs[..8], invs[8], invs[..9], t, registered, index);
    LegacySame(invs[..7], invs[7], invs[..8], t, registered, index);
    LegacyMore(invs[..6], invs[6], invs[..7], t, registered, index, NoParent(t, registered));
    LegacySame(invs[..5], invs[5], invs[..6], t, registered, index);
    LegacyMore(invs[..4], invs[4], invs[..5], t, registered, index, NoParent(t, registered));
    FirstFour(t, registered, index);
  }

  lemma FirstFour(t: Transition, registered: set<string>, index: int)
    requires index >= 0
    ensures LegacyVerdict(InitialInvariants()[..4], t, registered, index).violations
         == If(t.from.Some? && t.to.id != t.from.value, "state.identity.immutable", false)
            + If(t.to.id == "", "state.identity.explicit", false)
            + If(Taken(t, registered), "state.identity.unique", true)
            + If(t.to.isRoot != (t.from == None), "state.lineage.explicit", false)
  {
    hide LegacyVerdict, If, Broken;
    FirstBroken(t, registered, index);
    var invs := InitialInvariants();
    NoInvariants(t, registered, index);
    LegacyMore([], invs[0], invs[..1], t, registered, index, t.from.Some? && t.to.id != t.from.value);
    LegacyMore(invs[..1], invs[1], invs[..2], t, registered, index, t.to.id == "");
    LegacyMore(invs[..2], invs[2], invs[..3], t, registered, index, Taken(t, registered));
    LegacyMore(invs[..3], invs[3], invs[..4], t, registered, index, t.to.isRoot != (t.from == None));
  }

  lemma NoInvariants(t: Transition, registered: set<string>, index: int)
    ensures LegacyVerdict([], t, registered, index).violations == []
  {
  }

  lemma FirstBroken(t: Transition, registered: set<string>, index: int)
    ensures var invs := InitialInvariants();
            && |invs| == 11
            && Broken(invs[0], t, registered, index) == (t.from.Some? && t.to.id != t.from.value)
            && Broken(invs[1], t, registered, index) == (t.to.id == "")
            && Broken(invs[2], t, registered, index) == Taken(t, registered)
            && Broken(invs[3], t, registered, index) == (t.to.isRoot != (t.from == None))
            && Broken(invs[4], t, registered, index) == NoParent(t, registered)
  {
  }

  lemma OtherBroken(t: Transition, registered: set<string>, index: int)
    requires index >= 0
    ensures var invs := InitialInvariants();
            && |invs| == 11
            && !Broken(invs[5], t, registered, index) && Broken(invs[6], t, registered, index) == NoParent(t, registered)
            && !Broken(invs[7], t, registered, index) && !Broken(invs[8], t, registered, index)
            && !Broken(invs[9], t, registered, index) && !Broken(invs[10], t, registered, index)
  {
  }

  /** Under the initial invariants a transition is halted exactly when it takes a registered id for a new root or
      names a parent that is not registered; it is only rejected for any other defect. */
  lemma HaltedExactly(t: Transition, registered: set<string>, index: int)
    requires index >= 0
    ensures LegacyVerdict(InitialInvariants(), t, registered, index).Kind() == Halted <==> Taken(t, registered) || NoParent(t, registered)
  {
    hide LegacyVerdict, Broken;
    KindExactly(InitialInvariants(), t, registered, index);
    FirstBroken(t, registered, index);
    OtherBroken(t, registered, index);
    var invs := InitialInvariants();
    assert invs[2].halts && invs[6].halts;
    assert forall k :: 0 <= k < 11 && invs[k].halts ==> k == 2 || k >= 6;
  }
}
