/** Scoping, the three matchers, the summary, and what its allReconciled flag means
    (packages/reconciler/src/reconciler.ts). */
module Reconciliation {
  import opened Wrappers
  import opened MoneyMath
  import opened Grouping
  import opened Matching
  import IntentLedgerMatcher
  import ChainMatchers

  /** Empty fields do not restrict. */
  datatype Scope = Scope(intentId: string, chainId: string, correlationId: string, from: string, to: string)

  datatype Input = Input(intents: seq<Intent>, entries: seq<LedgerEntry>, events: seq<ChainEvent>, scope: Option<Scope>)

  datatype Summary = Summary(
    totalIntents: nat, totalLedgerEntries: nat, totalChainEvents: nat,
    matchedCount: nat, mismatchCount: nat, missingCount: nat, allReconciled: bool, codes: seq<Code>)

  datatype Report = Report(
    number: nat, intentLedger: seq<Match>, ledgerChain: seq<Match>, intentChain: seq<Match>, summary: Summary)

  // ---------------------------------------------------------------- scope

  predicate During(scope: Scope, at: string) {
    !(scope.from != "" && Less(at, scope.from)) && !(scope.to != "" && Less(scope.to, at))
  }

  predicate KeepsIntent(scope: Scope, i: Intent) {
    && !(scope.intentId != "" && i.id != scope.intentId)
    && !(scope.chainId != "" && i.chainId != scope.chainId)
    && !(scope.correlationId != "" && i.correlationId != scope.correlationId)
    && During(scope, i.declaredAt)
  }

  predicate KeepsEntry(scope: Scope, e: LedgerEntry) {
    !(scope.correlationId != "" && e.correlationId != scope.correlationId) && During(scope, e.timestamp)
  }

  predicate KeepsEvent(scope: Scope, e: ChainEvent) {
    !(scope.chainId != "" && e.chainId != scope.chainId) && During(scope, e.timestamp)
  }

  function ScopedIntents(input: Input): seq<Intent> {
    match input.scope case None => input.intents case Some(s) => Filter(input.intents, i => KeepsIntent(s, i))
  }

  function ScopedEntries(input: Input): seq<LedgerEntry> {
    match input.scope case None => input.entries case Some(s) => Filter(input.entries, e => KeepsEntry(s, e))
  }

  function ScopedEvents(input: Input): seq<ChainEvent> {
    match input.scope case None => input.events case Some(s) => Filter(input.events, e => KeepsEvent(s, e))
  }

  // ---------------------------------------------------------------- summary

  predicate IsMatched(m: Match) {
    m.status == Matched
  }

  predicate IsMismatch(m: Match) {
    m.status == AmountMismatch
  }

  predicate IsMissing(m: Match) {
    m.status in {MissingLedger, MissingIntent, MissingChain, Unmatched}
  }

  function AllCodes(matches: seq<Match>): seq<Code> {
    if matches == [] then [] else AllCodes(matches[..|matches| - 1]) + matches[|matches| - 1].codes
  }

  function ComputeSummary(intents: seq<Intent>, entries: seq<LedgerEntry>, events: seq<ChainEvent>, matches: seq<Match>): Summary {
    var mismatched, missing := |Filter(matches, IsMismatch)|, |Filter(matches, IsMissing)|;
    Summary(|intents|, |entries|, |events|, |Filter(matches, IsMatched)|, mismatched, missing,
            mismatched == 0 && missing == 0, AllCodes(matches))
  }

  /** Every match is counted in exactly one of the three counts. */
  lemma {:induction false} CountsPartition(matches: seq<Match>)
    ensures |Filter(matches, IsMatched)| + |Filter(matches, IsMismatch)| + |Filter(matches, IsMissing)| == |matches|
    ensures |Filter(matches, IsMatched)| == |matches| <==> AllMatched(matches)
    ensures |Filter(matches, IsMatched)| <= |matches|
  {
    if matches != [] {
      var n := |matches| - 1;
      CountsPartition(matches[..n]);
      assert matches == matches[..n] + [matches[n]];
    }
  }

  // ---------------------------------------------------------------- reconcile

  ghost function ReportOf(input: Input, number: nat): Result<Report, LedgerError> {
    var intents, entries, events := ScopedIntents(input), ScopedEntries(input), ScopedEvents(input);
    var intentLedger :- IntentLedgerMatcher.Matches(intents, entries);
    var ledgerChain :- ChainMatchers.LedgerMatches(entries, events);
    var intentChain :- ChainMatchers.IntentMatches(intents, events);
    Ok(Report(number, intentLedger, ledgerChain, intentChain,
              ComputeSummary(intents, entries, events, intentLedger + ledgerChain + intentChain)))
  }

  class Reconciler {
    var reportCounter: nat

    constructor ()
      ensures reportCounter == 0
    {
      reportCounter := 0;
    }

    /** A report whose number is fresh, or the error of the first amount that does not parse -- which uses
        up no number. */
    method Reconcile(input: Input) returns (r: Result<Report, LedgerError>)
      modifies this
      ensures r == ReportOf(input, old(reportCounter) + 1)
      ensures reportCounter == old(reportCounter) + if r.Ok? then 1 else 0
    {
      hide IntentLedgerMatcher.Matches, ChainMatchers.LedgerMatches, ChainMatchers.IntentMatches, ComputeSummary;
      var intents, entries, events := ScopedIntents(input), ScopedEntries(input), ScopedEvents(input);
      var intentLedger := IntentLedgerMatcher.MatchAll(intents, entries);
      if intentLedger.Err? { return Err(intentLedger.error); }
      var ledgerChain := ChainMatchers.MatchLedger(entries, events);
      if ledgerChain.Err? { return Err(ledgerChain.error); }
      var intentChain := ChainMatchers.MatchIntents(intents, events);
      if intentChain.Err? { return Err(intentChain.error); }
      var summary := ComputeSummary(intents, entries, events, intentLedger.value + ledgerChain.value + intentChain.value);
      reportCounter := reportCounter + 1;
      r := Ok(Report(reportCounter, intentLedger.value, ledgerChain.value, intentChain.value, summary));
    }
  }

  // ---------------------------------------------------------------- what allReconciled means

  /** Nothing is wrong between any two of the three records. */
  ghost predicate Reconciled(intents: seq<Intent>, entries: seq<LedgerEntry>, events: seq<ChainEvent>) {
    && IntentLedgerMatcher.Clean(intents, entries)
    && ChainMatchers.Clean(ChainMatchers.EntryClaims(entries), events)
    && ChainMatchers.Clean(ChainMatchers.IntentClaims(intents), events)
  }

  /** allReconciled is true exactly when the scoped records agree. */
  lemma AllReconciledExactly(input: Input, number: nat)
    requires ReportOf(input, number).Ok?
    ensures ReportOf(input, number).value.summary.allReconciled
            <==> Reconciled(ScopedIntents(input), ScopedEntries(input), ScopedEvents(input))
  {
    hide AllMatched, IntentLedgerMatcher.Matches, ChainMatchers.LedgerMatches, ChainMatchers.IntentMatches,
         IntentLedgerMatcher.Clean, ChainMatchers.Clean,
         ScopedIntents, ScopedEntries, ScopedEvents;
    var intents, entries, events := ScopedIntents(input), ScopedEntries(input), ScopedEvents(input);
    var r := ReportOf(input, number).value;
    IntentLedgerMatcher.CleanExactly(intents, entries);
    ChainMatchers.LedgerCleanExactly(entries, events);
    ChainMatchers.IntentCleanExactly(intents, events);
    CountsPartition(r.intentLedger + r.ledgerChain + r.intentChain);
    AllMatchedConcat(r.intentLedger + r.ledgerChain, r.intentChain);
    AllMatchedConcat(r.intentLedger, r.ledgerChain);
  }

  // ---------------------------------------------------------------- unique entry ids

  /** The plain reading of a reconciled book: executed intents have entries; amounts with entries equal the
      exact sum of debits, all in their currency; every named intent exists; every cited transaction has
      events whose first one in the currency has the exact amount; every event is cited on both sides. */
  ghost predicate BooksAgree(intents: seq<Intent>, entries: seq<LedgerEntry>, events: seq<ChainEvent>) {
    && (forall k :: 0 <= k < |intents| ==> IntentLedgerMatcher.IntentClean(intents[k], IntentLedgerMatcher.Linked(entries, intents[k].id)))
    && (forall k :: 0 <= k < |entries| ==> entries[k].intentId == "" || IntentLedgerMatcher.Known(intents, entries[k].intentId))
    && ChainMatchers.Clean(ChainMatchers.EntryClaims(entries), events)
    && ChainMatchers.Clean(ChainMatchers.IntentClaims(intents), events)
  }

  /** With unique entry ids allReconciled has its plain meaning. */
  lemma AllReconciledMeansBooksAgree(input: Input, number: nat)
    requires ReportOf(input, number).Ok? && IntentLedgerMatcher.UniqueIds(ScopedEntries(input))
    ensures ReportOf(input, number).value.summary.allReconciled
            <==> BooksAgree(ScopedIntents(input), ScopedEntries(input), ScopedEvents(input))
  {
    hide IntentLedgerMatcher.IntentClean, IntentLedgerMatcher.Linked, IntentLedgerMatcher.Known, IntentLedgerMatcher.IdMatched, ChainMatchers.Clean,
         ScopedIntents, ScopedEntries, ScopedEvents, ReportOf;
    var intents, entries := ScopedIntents(input), ScopedEntries(input);
    AllReconciledExactly(input, number);
    forall k | 0 <= k < |entries| && entries[k].intentId != ""
      ensures IntentLedgerMatcher.IdMatched(intents, entries, entries[k].id) <==> IntentLedgerMatcher.Known(intents, entries[k].intentId)
    {
      IntentLedgerMatcher.UniqueIdsMatch(intents, entries, k);
    }
  }

  function EntryIds(entries: seq<LedgerEntry>): seq<string> {
    seq(|entries|, k requires 0 <= k < |entries| => entries[k].id)
  }

  ghost predicate Distinct(ids: seq<string>) {
    forall j, k :: 0 <= j < k < |ids| ==> ids[j] != ids[k]
  }

  /** The report, if there is one, says allReconciled exactly when the books agree. */
  ghost predicate PlainMeaning(input: Input, number: nat) {
    ReportOf(input, number).Ok? ==>
      (ReportOf(input, number).value.summary.allReconciled
       <==> BooksAgree(ScopedIntents(input), ScopedEntries(input), ScopedEvents(input)))
  }

  /** The entries of the counterexample: j names an intent, k one that does not exist, the others none. */
  function OneOrphan(ids: seq<string>, j: nat, k: nat): seq<LedgerEntry> {
    seq(|ids|, n requires 0 <= n < |ids| =>
      LedgerEntry(ids[n], Debit, Money(FormatAmount(1, 0), "USD", 0), if n == j then "i" else if n == k then "j" else "", "", "", ""))
  }

  /** Two entries with one id are enough for the flag to be true of books that do not agree, whatever the
      other ids: an entry that names no existing intent hides behind another of its id. */
  lemma SharedEntryIdHidesOrphan(ids: seq<string>, j: nat, k: nat) returns (input: Input)
    requires j < k < |ids| && ids[j] == ids[k]
    ensures EntryIds(ScopedEntries(input)) == ids && ReportOf(input, 1).Ok?
    ensures ReportOf(input, 1).value.summary.allReconciled
    ensures !BooksAgree(ScopedIntents(input), ScopedEntries(input), ScopedEvents(input))
  {
    hide FormatAmount, Scaled, ReportOf, OneOrphan, Reconciled, BooksAgree;
    var intents, entries := [Intent("i", "declared", None, "", "", "", "")], OneOrphan(ids, j, k);
    input := Input(intents, entries, [], None);
    OrphanParses(ids, j, k, intents);
    AmountsParseMakesReport(input, 1);
    AllReconciledExactly(input, 1);
    OrphanLooksReconciled(ids, j, k, intents);
    OrphanDisagrees(ids, j, k, intents);
  }

  lemma OrphanParses(ids: seq<string>, j: nat, k: nat, intents: seq<Intent>)
    requires intents == [Intent("i", "declared", None, "", "", "", "")]
    ensures EntryIds(OneOrphan(ids, j, k)) == ids && AmountsParse(intents, OneOrphan(ids, j, k))
  {
    hide FormatAmount, Scaled;
    ParseFormat(1, 0);
    MoneyParses(Money(FormatAmount(1, 0), "USD", 0));
  }

  lemma OrphanDisagrees(ids: seq<string>, j: nat, k: nat, intents: seq<Intent>)
    requires j < k < |ids| && intents == [Intent("i", "declared", None, "", "", "", "")]
    ensures !BooksAgree(intents, OneOrphan(ids, j, k), [])
  {
    hide FormatAmount, IntentLedgerMatcher.IntentClean, ChainMatchers.Clean;
    assert OneOrphan(ids, j, k)[k].intentId == "j" && !IntentLedgerMatcher.Known(intents, "j");
  }

  lemma MoneyParses(m: Money)
    requires m.decimals >= 0 && ParseAmount(m.amount, m.decimals).Ok?
    ensures Scaled(m).Ok?
  {
  }

  lemma OrphanLooksReconciled(ids: seq<string>, j: nat, k: nat, intents: seq<Intent>)
    requires j < k < |ids| && ids[j] == ids[k] && intents == [Intent("i", "declared", None, "", "", "", "")]
    ensures Reconciled(intents, OneOrphan(ids, j, k), [])
  {
    hide IntentLedgerMatcher.Linked, ChainMatchers.EventsAt, FormatAmount;
    var entries := OneOrphan(ids, j, k);
    assert intents[0].id == "i" && entries[j].id == ids[j] && entries[j].intentId == "i";
    assert IntentLedgerMatcher.IdMatched(intents, entries, ids[j]);
  }

  /** The flag has its plain meaning for every input with these entry ids, whatever else it holds, if and only
      if no id is repeated. */
  lemma PlainMeaningExactly(ids: seq<string>)
    ensures (forall input, number :: EntryIds(ScopedEntries(input)) == ids ==> PlainMeaning(input, number)) <==> Distinct(ids)
  {
    hide ReportOf, BooksAgree, ScopedEntries, ScopedIntents, ScopedEvents;
    if Distinct(ids) {
      forall input, number | EntryIds(ScopedEntries(input)) == ids
        ensures PlainMeaning(input, number)
      {
        var entries := ScopedEntries(input);
        assert forall k :: 0 <= k < |entries| ==> entries[k].id == ids[k];
        if ReportOf(input, number).Ok? {
          AllReconciledMeansBooksAgree(input, number);
        }
      }
    } else {
      var j, k :| 0 <= j < k < |ids| && ids[j] == ids[k];
      var input := SharedEntryIdHidesOrphan(ids, j, k);
      assert !PlainMeaning(input, 1);
    }
  }

  // ---------------------------------------------------------------- when a report is made

  ghost predicate AmountsParse(intents: seq<Intent>, entries: seq<LedgerEntry>) {
    && (forall i :: i in intents && i.amount.Some? ==> Scaled(i.amount.value).Ok?)
    && (forall e :: e in entries ==> Scaled(e.money).Ok?)
  }

  /** If every amount in scope parses, reconciliation never throws, whatever the chain events contain
      (their decimals being integers). */
  lemma AmountsParseMakesReport(input: Input, number: nat)
    requires AmountsParse(ScopedIntents(input), ScopedEntries(input))
    ensures ReportOf(input, number).Ok?
  {
    hide Scaled, ScopedIntents, ScopedEntries, ScopedEvents, ComputeSummary;
    var intents, entries, events := ScopedIntents(input), ScopedEntries(input), ScopedEvents(input);
    VerdictsParse(intents, entries);
    ClaimsParse(ChainMatchers.EntryClaims(entries), events);
    ClaimsParse(ChainMatchers.IntentClaims(intents), events);
  }

  lemma {:induction false} VerdictsParse(intents: seq<Intent>, entries: seq<LedgerEntry>)
    requires AmountsParse(intents, entries)
    ensures IntentLedgerMatcher.Verdicts(intents, entries).Ok?
  {
    hide Scaled, IntentLedgerMatcher.Linked, ExactSum, Exact, Filter;
    if intents != [] {
      var i := intents[|intents| - 1];
      var linked := IntentLedgerMatcher.Linked(entries, i.id);
      VerdictsParse(intents[..|intents| - 1], entries);
      IntentLedgerMatcher.LinkedMembers(entries, i.id);
      var debits := Filter(linked, IntentLedgerMatcher.IsDebit);
      FilterMembers(linked, IntentLedgerMatcher.IsDebit);
      if i.amount.Some? {
        var c := i.amount.value.currency;
        FilterMembers(debits, IntentLedgerMatcher.SameCurrency(c));
        var same := Filter(debits, IntentLedgerMatcher.SameCurrency(c));
        assert forall k :: 0 <= k < |same| ==> same[k] in same;
        assert IntentLedgerMatcher.AllParse(same);
      }
    }
  }

  lemma {:induction false} ClaimsParse(claims: seq<ChainMatchers.Claim>, events: seq<ChainEvent>)
    requires forall c :: c in claims && c.amount.Some? ==> Scaled(c.amount.value).Ok?
    ensures ChainMatchers.Verdicts(claims, events).Ok?
  {
    hide Scaled, ChainMatchers.EventsAt, ChainMatchers.FirstIn, Exact, Rational;
    if claims != [] {
      assert claims[|claims| - 1] in claims;
      ClaimsParse(claims[..|claims| - 1], events);
    }
  }
}
