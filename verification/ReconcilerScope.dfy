/** What a scope does to a reconciled book: its fields filter the three records differently
    (packages/reconciler/src/reconciler.ts). */
module ReconcilerScope {
  import opened Wrappers
  import opened MoneyMath
  import opened Grouping
  import opened Matching
  import opened Reconciliation
  import IntentLedgerMatcher
  import ChainMatchers

  predicate Unrestricted(s: Scope) {
    s.intentId == "" && s.chainId == "" && s.correlationId == "" && s.from == "" && s.to == ""
  }

  /** A period that ends before it starts. */
  predicate EmptyPeriod(s: Scope) {
    s.from != "" && s.to != "" && Less(s.to, s.from)
  }

  ghost predicate AllWell(input: Input, number: nat) {
    ReportOf(input, number).Ok? && ReportOf(input, number).value.summary.allReconciled
  }

  // ---------------------------------------------------------------- what a scope keeps

  predicate Allows(field: string, value: string) {
    field == "" || field == value
  }

  predicate InPeriod(s: Scope, at: string) {
    (s.from == "" || !Less(at, s.from)) && (s.to == "" || !Less(s.to, at))
  }

  /** A scope keeps an intent that it allows by id, chain and correlation id, an entry by correlation id and an
      event by chain, each within the period; kept records keep their order and number. */
  lemma ScopeKeepsExactly(input: Input, s: Scope)
    requires input.scope == Some(s)
    ensures ScopedIntents(input) == Filter(input.intents, (i: Intent) =>
              Allows(s.intentId, i.id) && Allows(s.chainId, i.chainId) && Allows(s.correlationId, i.correlationId) && InPeriod(s, i.declaredAt))
    ensures ScopedEntries(input) == Filter(input.entries, (e: LedgerEntry) => Allows(s.correlationId, e.correlationId) && InPeriod(s, e.timestamp))
    ensures ScopedEvents(input) == Filter(input.events, (e: ChainEvent) => Allows(s.chainId, e.chainId) && InPeriod(s, e.timestamp))
  {
    FilterCongruent(input.intents, i => KeepsIntent(s, i), (i: Intent) =>
      Allows(s.intentId, i.id) && Allows(s.chainId, i.chainId) && Allows(s.correlationId, i.correlationId) && InPeriod(s, i.declaredAt));
    FilterCongruent(input.entries, e => KeepsEntry(s, e), (e: LedgerEntry) => Allows(s.correlationId, e.correlationId) && InPeriod(s, e.timestamp));
    FilterCongruent(input.events, e => KeepsEvent(s, e), (e: ChainEvent) => Allows(s.chainId, e.chainId) && InPeriod(s, e.timestamp));
  }

  // ---------------------------------------------------------------- scopes that keep a clean book

  lemma {:induction false} LessSplits(a: string, b: string, c: string)
    requires Less(a, c)
    ensures Less(a, b) || Less(b, c)
  {
    if a != "" && b != "" && a[0] == b[0] == c[0] {
      LessSplits(a[1..], b[1..], c[1..]);
    }
  }

  lemma NothingDuring(s: Scope, at: string)
    requires EmptyPeriod(s)
    ensures !During(s, at)
  {
    LessSplits(s.to, at, s.from);
  }

  lemma EmptyPeriodKeepsNothing(input: Input, s: Scope)
    requires EmptyPeriod(s)
    ensures var scoped := input.(scope := Some(s));
            ScopedIntents(scoped) == [] && ScopedEntries(scoped) == [] && ScopedEvents(scoped) == []
  {
    hide During, EmptyPeriod;
    forall at: string
      ensures !During(s, at)
    {
      NothingDuring(s, at);
    }
    FilterNone(input.intents, i => KeepsIntent(s, i));
    FilterNone(input.entries, e => KeepsEntry(s, e));
    FilterNone(input.events, e => KeepsEvent(s, e));
  }

  lemma UnrestrictedKeepsAll(input: Input, s: Scope)
    requires Unrestricted(s)
    ensures var scoped := input.(scope := Some(s));
            ScopedIntents(scoped) == input.intents && ScopedEntries(scoped) == input.entries && ScopedEvents(scoped) == input.events
  {
    FilterAll(input.intents, i => KeepsIntent(s, i));
    FilterAll(input.entries, e => KeepsEntry(s, e));
    FilterAll(input.events, e => KeepsEvent(s, e));
  }

  lemma SameRecordsSameReport(a: Input, b: Input, number: nat)
    requires ScopedIntents(a) == ScopedIntents(b) && ScopedEntries(a) == ScopedEntries(b) && ScopedEvents(a) == ScopedEvents(b)
    ensures ReportOf(a, number) == ReportOf(b, number)
  {
    hide ScopedIntents, ScopedEntries, ScopedEvents, ComputeSummary, IntentLedgerMatcher.Matches, ChainMatchers.LedgerMatches, ChainMatchers.IntentMatches;
  }

  lemma NothingIsWell(input: Input, number: nat)
    requires ScopedIntents(input) == [] && ScopedEntries(input) == [] && ScopedEvents(input) == []
    ensures AllWell(input, number)
  {
    hide ReportOf, ScopedIntents, ScopedEntries, ScopedEvents;
    AmountsParseMakesReport(input, number);
    AllReconciledExactly(input, number);
  }

  // ---------------------------------------------------------------- scopes that do not

  lemma {:induction false} LongerIsGreater(s: string)
    ensures Less(s, s + "x")
  {
    if s != "" {
      LongerIsGreater(s[1..]);
      assert (s + "x")[1..] == s[1..] + "x";
    }
  }

  lemma {:induction false} NotBelowItself(s: string)
    ensures !Less(s, s)
  {
    if s != "" {
      NotBelowItself(s[1..]);
    }
  }

  /** An intent that the scope leaves out, and an entry for it that the scope keeps. */
  function DroppedIntent(s: Scope): Intent {
    Intent(s.intentId + "x", "declared", None, "", s.chainId + "x", s.correlationId + "x", if s.from != "" then "" else s.to + "x")
  }

  function KeptEntry(s: Scope): LedgerEntry {
    LedgerEntry("e", Debit, Money(FormatAmount(1, 0), "USD", 0), s.intentId + "x", "", s.correlationId, s.from)
  }

  lemma DroppedAndKept(s: Scope)
    requires !Unrestricted(s) && !EmptyPeriod(s)
    ensures !KeepsIntent(s, DroppedIntent(s)) && KeepsEntry(s, KeptEntry(s))
  {
    LongerIsGreater(s.to);
    NotBelowItself(s.from);
    assert |s.intentId + "x"| != |s.intentId| && |s.chainId + "x"| != |s.chainId| && |s.correlationId + "x"| != |s.correlationId|;
  }

  lemma OneEntryWell(input: Input, i: Intent, e: LedgerEntry)
    requires input == Input([i], [e], [], None) && i.status == "declared" && i.amount == None && i.txHash == "" && e.txHash == ""
    requires e.intentId == i.id != "" && Scaled(e.money).Ok?
    ensures AllWell(input, 1)
  {
    hide ReportOf, Scaled, IntentLedgerMatcher.Linked, ChainMatchers.EventsAt;
    AmountsParseMakesReport(input, 1);
    AllReconciledExactly(input, 1);
    assert [i][0].id == e.intentId;
    assert [e][0].intentId == e.intentId;
    assert IntentLedgerMatcher.IdMatched([i], [e], e.id);
  }

  lemma OrphanIsNotWell(input: Input, e: LedgerEntry)
    requires ScopedIntents(input) == [] && ScopedEntries(input) == [e] && e.intentId != ""
    ensures !AllWell(input, 1)
  {
    hide ReportOf, ScopedIntents, ScopedEntries, ScopedEvents, ChainMatchers.Clean;
    if ReportOf(input, 1).Ok? {
      AllReconciledExactly(input, 1);
      assert [e][0].intentId != "";
    }
  }

  lemma ScopedPair(input: Input, s: Scope, i: Intent, e: LedgerEntry)
    requires input == Input([i], [e], [], Some(s)) && !KeepsIntent(s, i) && KeepsEntry(s, e)
    ensures ScopedIntents(input) == [] && ScopedEntries(input) == [e]
  {
    hide KeepsIntent, KeepsEntry;
    FilterNone([i], j => KeepsIntent(s, j));
    FilterAll([e], f => KeepsEntry(s, f));
  }

  lemma ScopeBreaks(s: Scope) returns (input: Input)
    requires !Unrestricted(s) && !EmptyPeriod(s)
    ensures input.scope == None && AllWell(input, 1) && !AllWell(input.(scope := Some(s)), 1)
  {
    hide AllWell, FormatAmount, KeepsIntent, KeepsEntry, Unrestricted, EmptyPeriod, ScopedIntents, ScopedEntries;
    var i, e := DroppedIntent(s), KeptEntry(s);
    input := Input([i], [e], [], None);
    ParseFormat(1, 0);
    DroppedAndKept(s);
    OneEntryWell(input, i, e);
    var scoped := input.(scope := Some(s));
    ScopedPair(scoped, s, i, e);
    OrphanIsNotWell(scoped, e);
  }

  /** Every book that reconciles without a scope reconciles in this one too, if and only if the scope restricts
      nothing or its period is empty. */
  lemma ScopeKeepsWellExactly(s: Scope)
    ensures (forall input: Input, number :: input.scope == None && AllWell(input, number) ==> AllWell(input.(scope := Some(s)), number))
       <==> Unrestricted(s) || EmptyPeriod(s)
  {
    hide Unrestricted, EmptyPeriod, ReportOf, ScopedIntents, ScopedEntries, ScopedEvents;
    if Unrestricted(s) || EmptyPeriod(s) {
      forall input: Input, number | input.scope == None && AllWell(input, number)
        ensures AllWell(input.(scope := Some(s)), number)
      {
        if Unrestricted(s) {
          UnrestrictedKeepsAll(input, s);
          NoScopeKeepsAll(input);
          SameRecordsSameReport(input, input.(scope := Some(s)), number);
        } else {
          EmptyPeriodKeepsNothing(input, s);
          NothingIsWell(input.(scope := Some(s)), number);
        }
      }
    } else {
      var input := ScopeBreaks(s);
    }
  }

  lemma NoScopeKeepsAll(input: Input)
    requires input.scope == None
    ensures ScopedIntents(input) == input.intents && ScopedEntries(input) == input.entries && ScopedEvents(input) == input.events
  {
  }
}
