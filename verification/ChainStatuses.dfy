/** What the chain matchers and the summary of a report say, read off the records themselves
    (packages/reconciler/src/ledger-chain-matcher.ts, packages/reconciler/src/intent-chain-matcher.ts,
    packages/reconciler/src/reconciler.ts). */
module ChainStatuses {
  import opened Wrappers
  import opened MoneyMath
  import opened Grouping
  import opened Matching
  import opened Reconciliation
  import opened MatchStatuses
  import IL = IntentLedgerMatcher
  import CM = ChainMatchers

  // ---------------------------------------------------------------- transactions

  ghost predicate Occurs(events: seq<ChainEvent>, txHash: string) {
    exists e :: e in events && e.txHash == txHash
  }

  predicate OfTransfer(e: ChainEvent, txHash: string, symbol: string) {
    e.txHash == txHash && e.symbol == symbol
  }

  /** The first event of the transaction in the amount's currency is for exactly this amount. */
  ghost predicate Settled(events: seq<ChainEvent>, txHash: string, m: Money) {
    exists k :: 0 <= k < |events| && OfTransfer(events[k], txHash, m.currency)
                && (forall j :: 0 <= j < k ==> !OfTransfer(events[j], txHash, m.currency))
                && CM.IsInteger(events[k].amount) && Exact(m) == Rational(CM.IntegerOf(events[k].amount), events[k].decimals)
  }

  ghost predicate Unseen(txHash: string, events: seq<ChainEvent>) {
    txHash != "" && !Occurs(events, txHash)
  }

  ghost predicate Disputed(txHash: string, amount: Option<Money>, events: seq<ChainEvent>) {
    txHash != "" && Occurs(events, txHash) && amount.Some? && !Settled(events, txHash, amount.value)
  }

  ghost predicate Seen(txHash: string, amount: Option<Money>, events: seq<ChainEvent>) {
    txHash != "" && Occurs(events, txHash) && (amount.Some? ==> Settled(events, txHash, amount.value))
  }

  lemma EventsAtAre(events: seq<ChainEvent>, txHash: string)
    ensures CM.EventsAt(events, txHash) != [] <==> Occurs(events, txHash)
  {
    SelectMembers(events, CM.TxHashOf, txHash);
    var linked := CM.EventsAt(events, txHash);
    if linked != [] {
      assert linked[0] in linked;
    }
  }

  lemma {:induction false} FirstInSnoc(xs: seq<ChainEvent>, x: ChainEvent, symbol: string)
    ensures CM.FirstIn(xs + [x], symbol)
         == if CM.FirstIn(xs, symbol).Some? then CM.FirstIn(xs, symbol) else if x.symbol == symbol then Some(x) else None
  {
    if xs != [] {
      assert (xs + [x])[1..] == xs[1..] + [x];
      FirstInSnoc(xs[1..], x, symbol);
    }
  }

  ghost predicate FirstAt(events: seq<ChainEvent>, txHash: string, symbol: string, k: int) {
    0 <= k < |events| && OfTransfer(events[k], txHash, symbol) && forall j :: 0 <= j < k ==> !OfTransfer(events[j], txHash, symbol)
  }

  lemma {:induction false} FirstOfTransfer(events: seq<ChainEvent>, txHash: string, symbol: string)
    ensures match CM.FirstIn(CM.EventsAt(events, txHash), symbol)
            case None => forall e :: e in events ==> !OfTransfer(e, txHash, symbol)
            case Some(e) => exists k :: FirstAt(events, txHash, symbol, k) && events[k] == e
  {
    hide CM.FirstIn;
    if events == [] {
      NoFirst(symbol);
    } else {
      var n := |events| - 1;
      FirstOfTransfer(events[..n], txHash, symbol);
      assert events == events[..n] + [events[n]];
      var before := CM.EventsAt(events[..n], txHash);
      FirstInSnoc(before, events[n], symbol);
      SnocSelect(events[..n], events[n], CM.TxHashOf, txHash);
      if CM.FirstIn(before, symbol).Some? {
        var k :| FirstAt(events[..n], txHash, symbol, k) && events[..n][k] == CM.FirstIn(before, symbol).value;
        FirstStays(events, n, txHash, symbol, k);
        assert events[k] == CM.FirstIn(before, symbol).value;
      } else if OfTransfer(events[n], txHash, symbol) {
        assert forall j :: 0 <= j < n ==> events[j] in events[..n];
        assert FirstAt(events, txHash, symbol, n);
      }
    }
  }

  lemma NoFirst(symbol: string)
    ensures CM.FirstIn([], symbol) == None
  {
  }

  lemma FirstStays(events: seq<ChainEvent>, n: nat, txHash: string, symbol: string, k: int)
    requires n <= |events| && FirstAt(events[..n], txHash, symbol, k)
    ensures FirstAt(events, txHash, symbol, k)
  {
    assert forall j :: 0 <= j < n ==> events[..n][j] == events[j];
  }

  lemma SettledIs(events: seq<ChainEvent>, txHash: string, m: Money)
    ensures var first := CM.FirstIn(CM.EventsAt(events, txHash), m.currency);
            Settled(events, txHash, m)
            <==> first.Some? && CM.IsInteger(first.value.amount) && Exact(m) == Rational(CM.IntegerOf(first.value.amount), first.value.decimals)
  {
    hide CM.FirstIn, CM.EventsAt, CM.IsInteger, Exact, Rational;
    FirstOfTransfer(events, txHash, m.currency);
    var first := CM.FirstIn(CM.EventsAt(events, txHash), m.currency);
    if first.Some? {
      var n :| FirstAt(events, txHash, m.currency, n) && events[n] == first.value;
      forall k | 0 <= k < |events| && OfTransfer(events[k], txHash, m.currency) && (forall j :: 0 <= j < k ==> !OfTransfer(events[j], txHash, m.currency))
        ensures k == n
      {
      }
    }
  }

  lemma TransferOccurs(events: seq<ChainEvent>, txHash: string, symbol: string)
    ensures CM.FirstIn(CM.EventsAt(events, txHash), symbol).Some? <==> exists e :: e in events && OfTransfer(e, txHash, symbol)
  {
    hide CM.FirstIn, CM.EventsAt;
    FirstOfTransfer(events, txHash, symbol);
    if CM.FirstIn(CM.EventsAt(events, txHash), symbol).Some? {
      var k :| FirstAt(events, txHash, symbol, k);
      assert events[k] in events;
    }
  }

  /** What is reported on one claim: an entry's or an intent's. */
  lemma ClaimVerdict(c: CM.Claim, events: seq<ChainEvent>)
    requires CM.Verdict(c, CM.EventsAt(events, c.txHash)).Ok?
    ensures var out := CM.Verdict(c, CM.EventsAt(events, c.txHash)).value;
            && (Unseen(c.txHash, events) ==> out == [Match(c.intentId, c.txHash, MissingChain, [ChainIsMissing])])
            && (Disputed(c.txHash, c.amount, events) ==>
                  out == [Match(c.intentId, c.txHash, AmountMismatch,
                                if exists e :: e in events && OfTransfer(e, c.txHash, c.amount.value.currency) then [AmountDiffers] else [CurrencyDiffers])])
            && (Seen(c.txHash, c.amount, events) ==> out == [Match(c.intentId, c.txHash, Matched, [])])
            && (c.txHash == "" ==> out == [])
  {
    hide CM.FirstIn, CM.EventsAt, CM.IsInteger, Exact, Rational, Scaled;
    EventsAtAre(events, c.txHash);
    if c.amount.Some? {
      SettledIs(events, c.txHash, c.amount.value);
      TransferOccurs(events, c.txHash, c.amount.value.currency);
    }
  }

  ghost function IsUnseen(events: seq<ChainEvent>, q: Pick): CM.Claim -> bool {
    (c: CM.Claim) => q.Names(c.intentId, c.txHash) && Unseen(c.txHash, events)
  }

  ghost function IsDisputed(events: seq<ChainEvent>, q: Pick): CM.Claim -> bool {
    (c: CM.Claim) => q.Names(c.intentId, c.txHash) && Disputed(c.txHash, c.amount, events)
  }

  ghost function IsSeen(events: seq<ChainEvent>, q: Pick): CM.Claim -> bool {
    (c: CM.Claim) => q.Names(c.intentId, c.txHash) && Seen(c.txHash, c.amount, events)
  }

  lemma OneClaim(c: CM.Claim, events: seq<ChainEvent>, q: Pick)
    requires CM.Verdict(c, CM.EventsAt(events, c.txHash)).Ok?
    ensures Count(CM.Verdict(c, CM.EventsAt(events, c.txHash)).value, Fits(q))
         == if || (q.status == MissingChain && IsUnseen(events, q)(c))
               || (q.status == AmountMismatch && IsDisputed(events, q)(c))
               || (q.status == Matched && IsSeen(events, q)(c)) then 1 else 0
  {
    hide CM.EventsAt, CM.Verdict, Occurs, Settled, Count;
    var out := CM.Verdict(c, CM.EventsAt(events, c.txHash)).value;
    ClaimVerdict(c, events);
    if out == [] {
      CountOne(Match("", "", Matched, []), Fits(q));
    } else {
      assert out == [out[0]];
      CountOne(out[0], Fits(q));
    }
  }

  lemma {:induction false} ClaimTally(claims: seq<CM.Claim>, events: seq<ChainEvent>, q: Pick)
    requires CM.Verdicts(claims, events).Ok?
    ensures Count(CM.Verdicts(claims, events).value, Fits(q))
         == match q.status
            case MissingChain => Count(claims, IsUnseen(events, q))
            case AmountMismatch => Count(claims, IsDisputed(events, q))
            case Matched => Count(claims, IsSeen(events, q))
            case _ => 0
  {
    hide CM.EventsAt, CM.Verdict, Count, IsUnseen, IsDisputed, IsSeen;
    if claims == [] {
      NoClaims(events, q);
    } else {
      var n := |claims| - 1;
      ClaimTally(claims[..n], events, q);
      OneClaim(claims[n], events, q);
      CountConcat(CM.Verdicts(claims[..n], events).value, CM.Verdict(claims[n], CM.EventsAt(events, claims[n].txHash)).value, Fits(q));
      CountSnoc(claims, IsUnseen(events, q));
      CountSnoc(claims, IsDisputed(events, q));
      CountSnoc(claims, IsSeen(events, q));
    }
  }

  lemma NoClaims(events: seq<ChainEvent>, q: Pick)
    ensures Count([], IsUnseen(events, q)) == Count([], IsDisputed(events, q)) == Count([], IsSeen(events, q)) == 0
    ensures Count([], Fits(q)) == 0
  {
  }

  // ---------------------------------------------------------------- events that nobody cites

  ghost predicate Uncited(claims: seq<CM.Claim>, txHash: string) {
    txHash == "" || forall c :: c in claims ==> c.txHash != txHash
  }

  lemma UncitedIs(claims: seq<CM.Claim>, txHash: string)
    ensures Uncited(claims, txHash) <==> !CM.Cited(claims, txHash)
  {
    if c :| c in claims && c.txHash == txHash {
      var k :| 0 <= k < |claims| && claims[k] == c;
      assert claims[k].txHash == txHash;
    }
  }

  ghost function IsUncited(claims: seq<CM.Claim>, q: Pick): ChainEvent -> bool {
    (e: ChainEvent) => q.Names("", e.txHash) && Uncited(claims, e.txHash)
  }

  lemma {:induction false} UncitedEventTally(claims: seq<CM.Claim>, events: seq<ChainEvent>, q: Pick)
    ensures Count(CM.UncitedEvents(claims, events), Fits(q)) == if q.status == MissingLedger then Count(events, IsUncited(claims, q)) else 0
  {
    hide CM.Cited, Uncited, Count;
    if events == [] {
      CountOne(Match("", "", Matched, []), Fits(q));
      NoEventCounted(claims, q);
    } else {
      var n := |events| - 1;
      var e := events[n];
      UncitedEventTally(claims, events[..n], q);
      UncitedIs(claims, e.txHash);
      var extra := Match("", e.txHash, MissingLedger, [LedgerIsMissing]);
      CountConcat(CM.UncitedEvents(claims, events[..n]), [extra], Fits(q));
      CountOne(extra, Fits(q));
      CountSnoc(events, IsUncited(claims, q));
      assert CM.UncitedEvents(claims, events[..n]) + [] == CM.UncitedEvents(claims, events[..n]);
    }
  }

  lemma NoEventCounted(claims: seq<CM.Claim>, q: Pick)
    ensures Count([], IsUncited(claims, q)) == 0
  {
  }

  /** The uncited transactions. */
  ghost function UncitedHashes(claims: seq<CM.Claim>, events: seq<ChainEvent>, q: Pick): set<string> {
    set e | e in events && Uncited(claims, e.txHash) && q.Names("", e.txHash) :: e.txHash
  }

  lemma {:induction false} UncitedTransactionTally(claims: seq<CM.Claim>, events: seq<ChainEvent>, q: Pick)
    ensures Count(CM.UncitedTransactions(claims, events), Fits(q)) == if q.status == MissingIntent then |UncitedHashes(claims, events, q)| else 0
  {
    hide CM.Cited, Uncited, Count, CM.TxHashKnown;
    if events == [] {
      CountOne(Match("", "", Matched, []), Fits(q));
    } else {
      var n := |events| - 1;
      var e := events[n];
      UncitedTransactionTally(claims, events[..n], q);
      UncitedIs(claims, e.txHash);
      HashesSnoc(claims, events, q);
      HashKnown(claims, events[..n], e.txHash, q);
      var extra := Match("", e.txHash, MissingIntent, [IntentIsMissing]);
      CountConcat(CM.UncitedTransactions(claims, events[..n]), [extra], Fits(q));
      CountOne(extra, Fits(q));
    }
  }

  lemma HashesSnoc(claims: seq<CM.Claim>, events: seq<ChainEvent>, q: Pick)
    requires events != []
    ensures var n := |events| - 1;
            UncitedHashes(claims, events, q)
            == UncitedHashes(claims, events[..n], q)
               + if Uncited(claims, events[n].txHash) && q.Names("", events[n].txHash) then {events[n].txHash} else {}
  {
    hide Uncited;
    var n := |events| - 1;
    assert events == events[..n] + [events[n]];
  }

  lemma HashKnown(claims: seq<CM.Claim>, events: seq<ChainEvent>, txHash: string, q: Pick)
    ensures txHash in UncitedHashes(claims, events, q) <==> CM.TxHashKnown(events, txHash) && Uncited(claims, txHash) && q.Names("", txHash)
  {
    hide Uncited;
    if CM.TxHashKnown(events, txHash) {
      var k :| 0 <= k < |events| && events[k].txHash == txHash;
      assert events[k] in events;
    }
    if e :| e in events && e.txHash == txHash {
      var k :| 0 <= k < |events| && events[k] == e;
      assert CM.TxHashKnown(events, txHash);
    }
  }

  // ---------------------------------------------------------------- the two chain matchers

  ghost function EntryUnseen(events: seq<ChainEvent>, q: Pick): LedgerEntry -> bool {
    (e: LedgerEntry) => q.Names("", e.txHash) && Unseen(e.txHash, events)
  }

  ghost function EntryDisputed(events: seq<ChainEvent>, q: Pick): LedgerEntry -> bool {
    (e: LedgerEntry) => q.Names("", e.txHash) && Disputed(e.txHash, Some(e.money), events)
  }

  ghost function EntrySeen(events: seq<ChainEvent>, q: Pick): LedgerEntry -> bool {
    (e: LedgerEntry) => q.Names("", e.txHash) && Seen(e.txHash, Some(e.money), events)
  }

  ghost function IntentUnseen(events: seq<ChainEvent>, q: Pick): Intent -> bool {
    (i: Intent) => q.Names(i.id, i.txHash) && Unseen(i.txHash, events)
  }

  ghost function IntentDisputed(events: seq<ChainEvent>, q: Pick): Intent -> bool {
    (i: Intent) => q.Names(i.id, i.txHash) && Disputed(i.txHash, i.amount, events)
  }

  ghost function IntentSeen(events: seq<ChainEvent>, q: Pick): Intent -> bool {
    (i: Intent) => q.Names(i.id, i.txHash) && Seen(i.txHash, i.amount, events)
  }

  ghost predicate CitedByNoEntry(entries: seq<LedgerEntry>, txHash: string) {
    txHash == "" || forall e :: e in entries ==> e.txHash != txHash
  }

  ghost predicate CitedByNoIntent(intents: seq<Intent>, txHash: string) {
    txHash == "" || forall i :: i in intents ==> i.txHash != txHash
  }

  ghost function EventWithoutEntry(entries: seq<LedgerEntry>, q: Pick): ChainEvent -> bool {
    (e: ChainEvent) => q.Names("", e.txHash) && CitedByNoEntry(entries, e.txHash)
  }

  ghost function HashesWithoutIntent(intents: seq<Intent>, events: seq<ChainEvent>, q: Pick): set<string> {
    set e | e in events && CitedByNoIntent(intents, e.txHash) && q.Names("", e.txHash) :: e.txHash
  }

  lemma {:induction false} MapCount<T, U>(xs: seq<T>, ys: seq<U>, p: T -> bool, q: U -> bool)
    requires |xs| == |ys| && forall k :: 0 <= k < |xs| ==> (p(xs[k]) <==> q(ys[k]))
    ensures Count(xs, p) == Count(ys, q)
  {
    if xs != [] {
      MapCount(xs[..|xs| - 1], ys[..|ys| - 1], p, q);
    }
  }

  lemma EntryClaimsCited(entries: seq<LedgerEntry>, txHash: string)
    ensures Uncited(CM.EntryClaims(entries), txHash) <==> CitedByNoEntry(entries, txHash)
  {
    var claims := CM.EntryClaims(entries);
    forall e | e in entries
      ensures exists c :: c in claims && c.txHash == e.txHash
    {
      var k :| 0 <= k < |entries| && entries[k] == e;
      assert claims[k] in claims;
    }
  }

  lemma IntentClaimsCited(intents: seq<Intent>, txHash: string)
    ensures Uncited(CM.IntentClaims(intents), txHash) <==> CitedByNoIntent(intents, txHash)
  {
    var claims := CM.IntentClaims(intents);
    forall i | i in intents
      ensures exists c :: c in claims && c.txHash == i.txHash
    {
      var k :| 0 <= k < |intents| && intents[k] == i;
      assert claims[k] in claims;
    }
  }

  /** The ledger-chain matcher, status by status. */
  lemma LedgerChainStatuses(entries: seq<LedgerEntry>, events: seq<ChainEvent>, q: Pick)
    requires CM.LedgerMatches(entries, events).Ok?
    ensures Count(CM.LedgerMatches(entries, events).value, Fits(q))
         == match q.status
            case MissingChain => Count(entries, EntryUnseen(events, q))
            case AmountMismatch => Count(entries, EntryDisputed(events, q))
            case Matched => Count(entries, EntrySeen(events, q))
            case MissingLedger => Count(events, EventWithoutEntry(entries, q))
            case _ => 0
  {
    hide CM.Verdicts, CM.UncitedEvents, Count, Unseen, Disputed, Seen, Uncited, CitedByNoEntry;
    var claims := CM.EntryClaims(entries);
    ClaimTally(claims, events, q);
    UncitedEventTally(claims, events, q);
    CountConcat(CM.Verdicts(claims, events).value, CM.UncitedEvents(claims, events), Fits(q));
    MapCount(claims, entries, IsUnseen(events, q), EntryUnseen(events, q));
    MapCount(claims, entries, IsDisputed(events, q), EntryDisputed(events, q));
    MapCount(claims, entries, IsSeen(events, q), EntrySeen(events, q));
    forall h
      ensures Uncited(claims, h) <==> CitedByNoEntry(entries, h)
    {
      EntryClaimsCited(entries, h);
    }
    MapCount(events, events, IsUncited(claims, q), EventWithoutEntry(entries, q));
  }

  /** The intent-chain matcher, status by status. */
  lemma IntentChainStatuses(intents: seq<Intent>, events: seq<ChainEvent>, q: Pick)
    requires CM.IntentMatches(intents, events).Ok?
    ensures Count(CM.IntentMatches(intents, events).value, Fits(q))
         == match q.status
            case MissingChain => Count(intents, IntentUnseen(events, q))
            case AmountMismatch => Count(intents, IntentDisputed(events, q))
            case Matched => Count(intents, IntentSeen(events, q))
            case MissingIntent => |HashesWithoutIntent(intents, events, q)|
            case _ => 0
  {
    hide CM.Verdicts, CM.UncitedTransactions, Count, Unseen, Disputed, Seen, Uncited, CitedByNoIntent;
    var claims := CM.IntentClaims(intents);
    ClaimTally(claims, events, q);
    UncitedTransactionTally(claims, events, q);
    CountConcat(CM.Verdicts(claims, events).value, CM.UncitedTransactions(claims, events), Fits(q));
    MapCount(claims, intents, IsUnseen(events, q), IntentUnseen(events, q));
    MapCount(claims, intents, IsDisputed(events, q), IntentDisputed(events, q));
    MapCount(claims, intents, IsSeen(events, q), IntentSeen(events, q));
    forall h
      ensures Uncited(claims, h) <==> CitedByNoIntent(intents, h)
    {
      IntentClaimsCited(intents, h);
    }
    assert UncitedHashes(claims, events, q) == HashesWithoutIntent(intents, events, q);
  }

  // ---------------------------------------------------------------- the summary

  function Any(status: Status): Pick {
    Pick(None, None, status)
  }

  lemma {:induction false} MissingCount(matches: seq<Match>)
    ensures Count(matches, IsMissing) == Count(matches, Fits(Any(MissingLedger))) + Count(matches, Fits(Any(MissingIntent)))
                                         + Count(matches, Fits(Any(MissingChain))) + Count(matches, Fits(Any(Unmatched)))
    ensures Count(matches, IsMismatch) == Count(matches, Fits(Any(AmountMismatch)))
    ensures Count(matches, IsMatched) == Count(matches, Fits(Any(Matched)))
  {
    if matches != [] {
      MissingCount(matches[..|matches| - 1]);
    }
  }

  /** A report counts as mismatches exactly the intents and entries whose amounts differ; as missing exactly the
      intents without a due entry, the intent ids that only orphans name, the citations of unknown transactions
      and the events and transactions nobody cites; and as matched everything that agrees. */
  lemma SummaryCounts(input: Input, number: nat)
    requires ReportOf(input, number).Ok?
    ensures var s := ReportOf(input, number).value.summary;
            var intents, entries, events := ScopedIntents(input), ScopedEntries(input), ScopedEvents(input);
            var mismatch, lost, matched := Any(AmountMismatch), Any(MissingLedger), Any(Matched);
            && s.mismatchCount == Count(intents, IsContradicted(entries, mismatch)) + Count(entries, EntryDisputed(events, mismatch))
                                  + Count(intents, IntentDisputed(events, mismatch))
            && s.missingCount == Count(intents, IsUnrecorded(entries, lost)) + Count(events, EventWithoutEntry(entries, lost))
                                 + |Orphans(intents, entries, entries, Any(MissingIntent))| + |HashesWithoutIntent(intents, events, Any(MissingIntent))|
                                 + Count(entries, EntryUnseen(events, Any(MissingChain))) + Count(intents, IntentUnseen(events, Any(MissingChain)))
            && s.matchedCount == Count(intents, IsConfirmed(entries, matched)) + Count(entries, EntrySeen(events, matched))
                                 + Count(intents, IntentSeen(events, matched))
            && (s.allReconciled <==> s.mismatchCount == 0 && s.missingCount == 0)
            && s.totalIntents == |intents| && s.totalLedgerEntries == |entries| && s.totalChainEvents == |events|
  {
    hide Count, IL.Matches, CM.LedgerMatches, CM.IntentMatches, ScopedIntents, ScopedEntries, ScopedEvents,
         IsUnrecorded, IsContradicted, IsConfirmed, EntryUnseen, EntryDisputed, EntrySeen, IntentUnseen, IntentDisputed, IntentSeen,
         EventWithoutEntry, Orphans, HashesWithoutIntent, Fits;
    var intents, entries, events := ScopedIntents(input), ScopedEntries(input), ScopedEvents(input);
    var r := ReportOf(input, number).value;
    forall status
      ensures Count(r.intentLedger + r.ledgerChain + r.intentChain, Fits(Any(status)))
           == Count(r.intentLedger, Fits(Any(status))) + Count(r.ledgerChain, Fits(Any(status))) + Count(r.intentChain, Fits(Any(status)))
    {
      CountConcat(r.intentLedger + r.ledgerChain, r.intentChain, Fits(Any(status)));
      CountConcat(r.intentLedger, r.ledgerChain, Fits(Any(status)));
    }
    MissingCount(r.intentLedger + r.ledgerChain + r.intentChain);
    SummaryIs(intents, entries, events, r.intentLedger + r.ledgerChain + r.intentChain);
    AllStatuses(input, r, MissingLedger);
    AllStatuses(input, r, MissingIntent);
    AllStatuses(input, r, MissingChain);
    AllStatuses(input, r, Unmatched);
    AllStatuses(input, r, AmountMismatch);
    AllStatuses(input, r, Matched);
  }

  lemma SummaryIs(intents: seq<Intent>, entries: seq<LedgerEntry>, events: seq<ChainEvent>, matches: seq<Match>)
    ensures var s := ComputeSummary(intents, entries, events, matches);
            && s.mismatchCount == Count(matches, IsMismatch) && s.missingCount == Count(matches, IsMissing)
            && s.matchedCount == Count(matches, IsMatched)
            && (s.allReconciled <==> s.mismatchCount == 0 && s.missingCount == 0)
  {
  }

  lemma AllStatuses(input: Input, r: Report, status: Status)
    requires ReportOf(input, r.number) == Ok(r)
    ensures var intents, entries, events, q := ScopedIntents(input), ScopedEntries(input), ScopedEvents(input), Any(status);
            && Count(r.intentLedger, Fits(q))
               == (match status case MissingLedger => Count(intents, IsUnrecorded(entries, q)) case AmountMismatch => Count(intents, IsContradicted(entries, q))
                   case Matched => Count(intents, IsConfirmed(entries, q)) case MissingIntent => |Orphans(intents, entries, entries, q)| case _ => 0)
            && Count(r.ledgerChain, Fits(q))
               == (match status case MissingChain => Count(entries, EntryUnseen(events, q)) case AmountMismatch => Count(entries, EntryDisputed(events, q))
                   case Matched => Count(entries, EntrySeen(events, q)) case MissingLedger => Count(events, EventWithoutEntry(entries, q)) case _ => 0)
            && Count(r.intentChain, Fits(q))
               == (match status case MissingChain => Count(intents, IntentUnseen(events, q)) case AmountMismatch => Count(intents, IntentDisputed(events, q))
                   case Matched => Count(intents, IntentSeen(events, q)) case MissingIntent => |HashesWithoutIntent(intents, events, q)| case _ => 0)
  {
    hide Count, IL.Matches, CM.LedgerMatches, CM.IntentMatches, ScopedIntents, ScopedEntries, ScopedEvents, ComputeSummary,
         IsUnrecorded, IsContradicted, IsConfirmed, EntryUnseen, EntryDisputed, EntrySeen, IntentUnseen, IntentDisputed, IntentSeen,
         EventWithoutEntry, Orphans, HashesWithoutIntent, Fits;
    var intents, entries, events := ScopedIntents(input), ScopedEntries(input), ScopedEvents(input);
    IntentLedgerStatuses(intents, entries, Any(status));
    LedgerChainStatuses(entries, events, Any(status));
    IntentChainStatuses(intents, events, Any(status));
  }

  // ---------------------------------------------------------------- when reconciling throws

  /** The transaction has an event in the amount's currency, and the amount does not parse. */
  ghost predicate Incomparable(txHash: string, amount: Option<Money>, events: seq<ChainEvent>) {
    txHash != "" && amount.Some? && Scaled(amount.value).Err? && exists e :: e in events && OfTransfer(e, txHash, amount.value.currency)
  }

  lemma ClaimThrows(c: CM.Claim, events: seq<ChainEvent>)
    ensures CM.Verdict(c, CM.EventsAt(events, c.txHash)).Err? <==> Incomparable(c.txHash, c.amount, events)
  {
    hide CM.FirstIn, CM.EventsAt, CM.IsInteger, Exact, Rational, Scaled;
    EventsAtAre(events, c.txHash);
    if c.amount.Some? {
      TransferOccurs(events, c.txHash, c.amount.value.currency);
    }
  }

  lemma {:induction false} ClaimsThrow(claims: seq<CM.Claim>, events: seq<ChainEvent>)
    ensures CM.Verdicts(claims, events).Err? <==> exists k :: 0 <= k < |claims| && Incomparable(claims[k].txHash, claims[k].amount, events)
  {
    hide CM.EventsAt, CM.Verdict, Incomparable;
    if claims != [] {
      var n := |claims| - 1;
      ClaimsThrow(claims[..n], events);
      ClaimThrows(claims[n], events);
      assert claims == claims[..n] + [claims[n]];
    }
  }

  /** Reconciling throws exactly on an intent whose entries cannot be compared with it, or an entry or intent
      whose amount cannot be compared with an event in its currency. */
  lemma ReportThrowsExactly(input: Input, number: nat)
    ensures var intents, entries, events := ScopedIntents(input), ScopedEntries(input), ScopedEvents(input);
            ReportOf(input, number).Err?
            <==> || (exists i :: i in intents && Unreadable(i, entries))
                 || (exists e :: e in entries && Incomparable(e.txHash, Some(e.money), events))
                 || (exists i :: i in intents && Incomparable(i.txHash, i.amount, events))
  {
    hide CM.Verdicts, IL.Verdicts, ScopedIntents, ScopedEntries, ScopedEvents, Incomparable, Unreadable, ComputeSummary, CM.UncitedEvents, CM.UncitedTransactions;
    var intents, entries, events := ScopedIntents(input), ScopedEntries(input), ScopedEvents(input);
    IntentsThrow(intents, entries);
    ClaimsThrow(CM.EntryClaims(entries), events);
    ClaimsThrow(CM.IntentClaims(intents), events);
    assert (exists k :: 0 <= k < |entries| && Incomparable(entries[k].txHash, Some(entries[k].money), events))
      <==> exists e :: e in entries && Incomparable(e.txHash, Some(e.money), events);
    assert (exists k :: 0 <= k < |intents| && Incomparable(intents[k].txHash, intents[k].amount, events))
      <==> exists i :: i in intents && Incomparable(i.txHash, i.amount, events);
    assert forall k :: 0 <= k < |entries| ==> CM.EntryClaims(entries)[k] == CM.Claim("", entries[k].txHash, Some(entries[k].money));
    assert forall k :: 0 <= k < |intents| ==> CM.IntentClaims(intents)[k] == CM.Claim(intents[k].id, intents[k].txHash, intents[k].amount);
  }
}
