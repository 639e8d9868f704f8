/** Ledger entries and intents against on-chain events (packages/reconciler/src/ledger-chain-matcher.ts,
    packages/reconciler/src/intent-chain-matcher.ts). The two matchers make the same first pass, over
    anything that cites a transaction; they differ in how they report events nobody cites. */
module ChainMatchers {
  import opened Wrappers
  import opened Decimal
  import opened MoneyMath
  import opened Grouping
  import opened Matching

  /** An entry or an intent as the first pass sees it. */
  datatype Claim = Claim(intentId: string, txHash: string, amount: Option<Money>)

  datatype Finding = Finding(status: Status, codes: seq<Code>)

  function EntryClaims(entries: seq<LedgerEntry>): seq<Claim> {
    seq(|entries|, k requires 0 <= k < |entries| => Claim("", entries[k].txHash, Some(entries[k].money)))
  }

  function IntentClaims(intents: seq<Intent>): seq<Claim> {
    seq(|intents|, k requires 0 <= k < |intents| => Claim(intents[k].id, intents[k].txHash, intents[k].amount))
  }

  // ---------------------------------------------------------------- the reference

  function TxHashOf(e: ChainEvent): string {
    e.txHash
  }

  function EventsAt(events: seq<ChainEvent>, txHash: string): seq<ChainEvent> {
    Select(events, TxHashOf, txHash)
  }

  /** The first event in a currency. */
  function FirstIn(events: seq<ChainEvent>, symbol: string): Option<ChainEvent> {
    if events == [] then None
    else if events[0].symbol == symbol then Some(events[0])
    else FirstIn(events[1..], symbol)
  }

  /** What /^-?\d+$/ accepts. */
  predicate IsInteger(s: string) {
    if s != "" && s[0] == '-' then s[1..] != "" && AllDigits(s[1..]) else s != "" && AllDigits(s)
  }

  function IntegerOf(s: string): int
    requires IsInteger(s)
  {
    if s[0] == '-' then 0 - Value(s[1..]) else Value(s)
  }

  /** Whether an amount equals, exactly, the first event in its currency. */
  ghost function Compare(m: Money, linked: seq<ChainEvent>): Result<Finding, LedgerError> {
    match FirstIn(linked, m.currency)
    case None => Ok(Finding(AmountMismatch, [CurrencyDiffers]))
    case Some(e) =>
      if Scaled(m).Err? then Err(InvalidAmount)
      else if IsInteger(e.amount) && Exact(m) == Rational(IntegerOf(e.amount), e.decimals) then Ok(Finding(Matched, []))
      else Ok(Finding(AmountMismatch, [AmountDiffers]))
  }

  ghost function Verdict(c: Claim, linked: seq<ChainEvent>): Result<seq<Match>, LedgerError> {
    if c.txHash == "" then Ok([])
    else if linked == [] then Ok([Match(c.intentId, c.txHash, MissingChain, [ChainIsMissing])])
    else if c.amount == None then Ok([Match(c.intentId, c.txHash, Matched, [])])
    else
      var found :- Compare(c.amount.value, linked);
      Ok([Match(c.intentId, c.txHash, found.status, found.codes)])
  }

  ghost function Verdicts(claims: seq<Claim>, events: seq<ChainEvent>): Result<seq<Match>, LedgerError> {
    if claims == [] then Ok([])
    else
      var c := claims[|claims| - 1];
      var before :- Verdicts(claims[..|claims| - 1], events);
      var verdict :- Verdict(c, EventsAt(events, c.txHash));
      Ok(before + verdict)
  }

  /** A transaction that some claim cites. */
  predicate Cited(claims: seq<Claim>, txHash: string) {
    txHash != "" && exists k :: 0 <= k < |claims| && claims[k].txHash == txHash
  }

  /** Every event of an uncited transaction, as the ledger matcher reports them. */
  function UncitedEvents(claims: seq<Claim>, events: seq<ChainEvent>): seq<Match> {
    if events == [] then []
    else
      var e := events[|events| - 1];
      UncitedEvents(claims, events[..|events| - 1])
      + if Cited(claims, e.txHash) then [] else [Match("", e.txHash, MissingLedger, [LedgerIsMissing])]
  }

  /** Every uncited transaction once, as the intent matcher reports them. */
  function UncitedTransactions(claims: seq<Claim>, events: seq<ChainEvent>): seq<Match> {
    if events == [] then []
    else
      var e := events[|events| - 1];
      var before := UncitedTransactions(claims, events[..|events| - 1]);
      if Cited(claims, e.txHash) || TxHashKnown(events[..|events| - 1], e.txHash) then before
      else before + [Match("", e.txHash, MissingIntent, [IntentIsMissing])]
  }

  predicate TxHashKnown(events: seq<ChainEvent>, txHash: string) {
    exists k :: 0 <= k < |events| && events[k].txHash == txHash
  }

  // ---------------------------------------------------------------- the matchers

  function At(index: map<string, seq<ChainEvent>>, txHash: string): seq<ChainEvent> {
    if txHash in index then index[txHash] else []
  }

  ghost predicate Indexes(index: map<string, seq<ChainEvent>>, events: seq<ChainEvent>) {
    forall h :: At(index, h) == EventsAt(events, h)
  }

  method IndexByTxHash(events: seq<ChainEvent>) returns (index: map<string, seq<ChainEvent>>)
    ensures Indexes(index, events)
  {
    index := map[];
    for k := 0 to |events|
      invariant Indexes(index, events[..k])
    {
      var e := events[k];
      assert events[..k + 1] == events[..k] + [e];
      ghost var before := index;
      index := index[e.txHash := At(index, e.txHash) + [e]];
      forall h
        ensures At(index, h) == EventsAt(events[..k + 1], h)
      {
        SnocSelect(events[..k], e, TxHashOf, h);
        assert At(before, h) == EventsAt(events[..k], h);
      }
    }
    assert events[..|events|] == events;
  }

  method Find(events: seq<ChainEvent>, symbol: string) returns (e: Option<ChainEvent>)
    ensures e == FirstIn(events, symbol)
  {
    for k := 0 to |events|
      invariant FirstIn(events, symbol) == FirstIn(events[k..], symbol)
    {
      if events[k].symbol == symbol {
        return Some(events[k]);
      }
      assert events[k..][1..] == events[k + 1..];
    }
    e := None;
  }

  method CompareWithChain(m: Money, linked: seq<ChainEvent>) returns (r: Result<Finding, LedgerError>)
    ensures r == Compare(m, linked)
  {
    hide Scaled, Rational, FirstIn, Pow10, IsInteger;
    var event := Find(linked, m.currency);
    if event == None {
      return Ok(Finding(AmountMismatch, [CurrencyDiffers]));
    }
    if Scaled(m).Err? {
      return Err(InvalidAmount);
    }
    var e := event.value;
    if !IsInteger(e.amount) {
      return Ok(Finding(AmountMismatch, [AmountDiffers]));
    }
    var ledgerRaw, chainRaw := Scaled(m).value, IntegerOf(e.amount);
    NonNegativeDecimals(m);
    var amountMatches;
    if m.decimals == e.decimals {
      amountMatches := ledgerRaw == chainRaw;
      SameBase(ledgerRaw, chainRaw, m.decimals);
    } else {
      var maxDec := if m.decimals > e.decimals then m.decimals else e.decimals;
      amountMatches := ledgerRaw * Pow10(maxDec - m.decimals) == chainRaw * Pow10(maxDec - e.decimals);
      CompareNormalized(ledgerRaw, m.decimals, chainRaw, e.decimals, maxDec);
    }
    r := Ok(if amountMatches then Finding(Matched, []) else Finding(AmountMismatch, [AmountDiffers]));
  }

  lemma NonNegativeDecimals(m: Money)
    requires Scaled(m).Ok?
    ensures m.decimals >= 0
  {
  }

  lemma SameBase(v: int, w: int, d: nat)
    ensures v == w <==> Rational(v, d) == Rational(w, d)
  {
    hide Rational;
    CompareNormalized(v, d, w, d, d);
    assert Pow10(d - d) == 1;
  }

  /** What is reported on one claim. */
  method MatchClaim(c: Claim, linked: seq<ChainEvent>) returns (r: Result<seq<Match>, LedgerError>)
    ensures r == Verdict(c, linked)
  {
    hide Compare;
    if c.txHash == "" { return Ok([]); }
    if |linked| == 0 { return Ok([Match(c.intentId, c.txHash, MissingChain, [ChainIsMissing])]); }
    if c.amount == None { return Ok([Match(c.intentId, c.txHash, Matched, [])]); }
    var found := CompareWithChain(c.amount.value, linked);
    if found.Err? { return Err(found.error); }
    r := Ok([Match(c.intentId, c.txHash, found.value.status, found.value.codes)]);
  }

  /** The set holds exactly the cited transactions that have events. */
  ghost predicate Tracks(matched: set<string>, claims: seq<Claim>, events: seq<ChainEvent>) {
    forall h :: h in matched <==> Cited(claims, h) && EventsAt(events, h) != []
  }

  lemma TracksMore(matched: set<string>, claims: seq<Claim>, events: seq<ChainEvent>, k: nat)
    requires k < |claims| && Tracks(matched, claims[..k], events)
    ensures var h := claims[k].txHash;
            Tracks(if h != "" && EventsAt(events, h) != [] then matched + {h} else matched, claims[..k + 1], events)
  {
    hide EventsAt;
    CitedSnoc(claims, k);
  }

  lemma TracksNone(events: seq<ChainEvent>)
    ensures Tracks({}, [], events)
  {
  }

  lemma TracksEvents(matched: set<string>, claims: seq<Claim>, events: seq<ChainEvent>)
    requires Tracks(matched, claims, events)
    ensures forall e :: e in events ==> (e.txHash in matched <==> Cited(claims, e.txHash))
  {
    hide EventsAt;
    forall e | e in events
      ensures EventsAt(events, e.txHash) != []
    {
      EventFound(events, e);
    }
  }

  /** The first pass: one verdict per claim, noting the transactions that were found. */
  method MatchClaims(claims: seq<Claim>, events: seq<ChainEvent>) returns (r: Result<seq<Match>, LedgerError>, matchedTxHashes: set<string>)
    ensures r == Verdicts(claims, events)
    ensures r.Ok? ==> forall e :: e in events ==> (e.txHash in matchedTxHashes <==> Cited(claims, e.txHash))
  {
    hide EventsAt, Verdict, Tracks, Cited;
    var index := IndexByTxHash(events);
    var results: seq<Match> := [];
    matchedTxHashes := {};
    TracksNone(events);
    assert claims[..0] == [];
    for k := 0 to |claims|
      invariant Verdicts(claims[..k], events) == Ok(results)
      invariant Tracks(matchedTxHashes, claims[..k], events)
    {
      var c := claims[k];
      assert claims[..k + 1][..k] == claims[..k];
      var linked := At(index, c.txHash);
      assert linked == EventsAt(events, c.txHash);
      var verdict := MatchClaim(c, linked);
      if verdict.Err? {
        VerdictsFail(claims, events, k + 1);
        return Err(verdict.error), matchedTxHashes;
      }
      TracksMore(matchedTxHashes, claims, events, k);
      if c.txHash != "" && |linked| > 0 {
        matchedTxHashes := matchedTxHashes + {c.txHash};
      }
      results := results + verdict.value;
    }
    assert claims[..|claims|] == claims;
    TracksEvents(matchedTxHashes, claims, events);
    r := Ok(results);
  }

  lemma EventFound(events: seq<ChainEvent>, e: ChainEvent)
    requires e in events
    ensures EventsAt(events, e.txHash) != []
  {
    SelectMembers(events, TxHashOf, e.txHash);
    assert e in EventsAt(events, e.txHash);
  }

  lemma CitedSnoc(claims: seq<Claim>, k: nat)
    requires k < |claims|
    ensures forall h :: Cited(claims[..k + 1], h) <==> Cited(claims[..k], h) || (h != "" && h == claims[k].txHash)
  {
    var now, before := claims[..k + 1], claims[..k];
    forall h
      ensures Cited(now, h) <==> Cited(before, h) || (h != "" && h == claims[k].txHash)
    {
      if Cited(before, h) {
        var j :| 0 <= j < k && before[j].txHash == h;
        assert now[j].txHash == h;
      }
      assert now[k] == claims[k];
      if Cited(now, h) {
        var j :| 0 <= j <= k && now[j].txHash == h;
        assert j < k ==> before[j].txHash == h;
      }
    }
  }

  lemma {:induction false} VerdictsFail(claims: seq<Claim>, events: seq<ChainEvent>, k: nat)
    requires k <= |claims| && Verdicts(claims[..k], events).Err?
    ensures Verdicts(claims, events) == Verdicts(claims[..k], events)
  {
    if k < |claims| {
      assert claims[..|claims| - 1][..k] == claims[..k];
      VerdictsFail(claims[..|claims| - 1], events, k);
    } else {
      assert claims[..k] == claims;
    }
  }

  ghost function LedgerMatches(entries: seq<LedgerEntry>, events: seq<ChainEvent>): Result<seq<Match>, LedgerError> {
    var claims := EntryClaims(entries);
    var verdicts :- Verdicts(claims, events);
    Ok(verdicts + UncitedEvents(claims, events))
  }

  ghost function IntentMatches(intents: seq<Intent>, events: seq<ChainEvent>): Result<seq<Match>, LedgerError> {
    var claims := IntentClaims(intents);
    var verdicts :- Verdicts(claims, events);
    Ok(verdicts + UncitedTransactions(claims, events))
  }

  /** LedgerChainMatcher.match. */
  method MatchLedger(entries: seq<LedgerEntry>, events: seq<ChainEvent>) returns (r: Result<seq<Match>, LedgerError>)
    ensures r == LedgerMatches(entries, events)
  {
    hide Verdicts, Cited;
    var claims := EntryClaims(entries);
    var verdicts, matchedTxHashes := MatchClaims(claims, events);
    if verdicts.Err? { return Err(verdicts.error); }
    var orphans: seq<Match> := [];
    for k := 0 to |events|
      invariant orphans == UncitedEvents(claims, events[..k])
    {
      assert events[..k + 1][..k] == events[..k];
      assert events[k] in events;
      if events[k].txHash !in matchedTxHashes {
        orphans := orphans + [Match("", events[k].txHash, MissingLedger, [LedgerIsMissing])];
      }
    }
    assert events[..|events|] == events;
    r := Ok(verdicts.value + orphans);
  }

  /** IntentChainMatcher.match. */
  method MatchIntents(intents: seq<Intent>, events: seq<ChainEvent>) returns (r: Result<seq<Match>, LedgerError>)
    ensures r == IntentMatches(intents, events)
  {
    hide Verdicts, Cited;
    var claims := IntentClaims(intents);
    var verdicts, matchedTxHashes := MatchClaims(claims, events);
    if verdicts.Err? { return Err(verdicts.error); }
    var orphans: seq<Match> := [];
    var reportedOrphanTxHashes: set<string> := {};
    for k := 0 to |events|
      invariant orphans == UncitedTransactions(claims, events[..k])
      invariant forall h :: h in reportedOrphanTxHashes <==> TxHashKnown(events[..k], h) && !Cited(claims, h)
    {
      var e := events[k];
      assert events[..k + 1][..k] == events[..k] && events[k] in events;
      KnownSnoc(events, k);
      if e.txHash !in matchedTxHashes && e.txHash !in reportedOrphanTxHashes {
        reportedOrphanTxHashes := reportedOrphanTxHashes + {e.txHash};
        orphans := orphans + [Match("", e.txHash, MissingIntent, [IntentIsMissing])];
      }
    }
    assert events[..|events|] == events;
    r := Ok(verdicts.value + orphans);
  }

  lemma KnownSnoc(events: seq<ChainEvent>, k: nat)
    requires k < |events|
    ensures forall h :: TxHashKnown(events[..k + 1], h) <==> TxHashKnown(events[..k], h) || h == events[k].txHash
  {
    var now, before := events[..k + 1], events[..k];
    forall h
      ensures TxHashKnown(now, h) <==> TxHashKnown(before, h) || h == events[k].txHash
    {
      if TxHashKnown(before, h) {
        var j :| 0 <= j < k && before[j].txHash == h;
        assert now[j].txHash == h;
      }
      assert now[k] == events[k];
      if TxHashKnown(now, h) {
        var j :| 0 <= j <= k && now[j].txHash == h;
        assert j < k ==> before[j].txHash == h;
      }
    }
  }

  // ---------------------------------------------------------------- when everything matches

  /** A clean claim: its transaction has events, and its amount, if any, equals exactly the first event in
      its currency. */
  ghost predicate ClaimClean(c: Claim, linked: seq<ChainEvent>) {
    c.txHash != "" ==> linked != [] && (c.amount.Some? ==> Settles(c.amount.value, linked))
  }

  ghost predicate Settles(m: Money, linked: seq<ChainEvent>) {
    var e := FirstIn(linked, m.currency);
    e.Some? && IsInteger(e.value.amount) && Exact(m) == Rational(IntegerOf(e.value.amount), e.value.decimals)
  }

  ghost predicate Clean(claims: seq<Claim>, events: seq<ChainEvent>) {
    && (forall k :: 0 <= k < |claims| ==> ClaimClean(claims[k], EventsAt(events, claims[k].txHash)))
    && AllCited(claims, events)
  }

  lemma VerdictClean(c: Claim, linked: seq<ChainEvent>)
    requires Verdict(c, linked).Ok?
    ensures AllMatched(Verdict(c, linked).value) <==> ClaimClean(c, linked)
  {
    hide Scaled, FirstIn, Rational, Exact, IsInteger;
    var results := Verdict(c, linked).value;
    assert results != [] ==> (AllMatched(results) <==> results[0].status == Matched);
  }

  lemma {:induction false} VerdictsClean(claims: seq<Claim>, events: seq<ChainEvent>)
    requires Verdicts(claims, events).Ok?
    ensures AllMatched(Verdicts(claims, events).value)
            <==> forall k :: 0 <= k < |claims| ==> ClaimClean(claims[k], EventsAt(events, claims[k].txHash))
  {
    hide ClaimClean, EventsAt, Verdict, AllMatched;
    if claims != [] {
      var n := |claims| - 1;
      var c := claims[n];
      VerdictsClean(claims[..n], events);
      VerdictClean(c, EventsAt(events, c.txHash));
      AllMatchedConcat(Verdicts(claims[..n], events).value, Verdict(c, EventsAt(events, c.txHash)).value);
      assert claims == claims[..n] + [c];
    } else {
      NoneMatched();
    }
  }

  lemma NoneMatched()
    ensures AllMatched([])
  {
  }

  ghost predicate AllCited(claims: seq<Claim>, events: seq<ChainEvent>) {
    forall k :: 0 <= k < |events| ==> Cited(claims, events[k].txHash)
  }

  lemma AllCitedSnoc(claims: seq<Claim>, events: seq<ChainEvent>)
    requires events != []
    ensures var n := |events| - 1; AllCited(claims, events) <==> AllCited(claims, events[..n]) && Cited(claims, events[n].txHash)
    ensures var n := |events| - 1; TxHashKnown(events[..n], events[n].txHash) && AllCited(claims, events[..n]) ==> Cited(claims, events[n].txHash)
  {
    hide Cited;
    var n := |events| - 1;
    assert events == events[..n] + [events[n]];
  }

  lemma {:induction false} UncitedClean(claims: seq<Claim>, events: seq<ChainEvent>)
    ensures AllMatched(UncitedEvents(claims, events)) <==> AllCited(claims, events)
    ensures AllMatched(UncitedTransactions(claims, events)) <==> AllCited(claims, events)
  {
    hide Cited, TxHashKnown, AllCited, AllMatched;
    if events != [] {
      var n := |events| - 1;
      var txHash := events[n].txHash;
      var lost, extra := Match("", txHash, MissingLedger, [LedgerIsMissing]), Match("", txHash, MissingIntent, [IntentIsMissing]);
      UncitedClean(claims, events[..n]);
      AllCitedSnoc(claims, events);
      AllMatchedConcat(UncitedEvents(claims, events[..n]), [lost]);
      AllMatchedConcat(UncitedTransactions(claims, events[..n]), [extra]);
      NotAllMatched(lost);
      NotAllMatched(extra);
      assert UncitedEvents(claims, events[..n]) + [] == UncitedEvents(claims, events[..n]);
    } else {
      NoneCited(claims);
      NoneMatched();
    }
  }

  lemma NotAllMatched(m: Match)
    requires m.status != Matched
    ensures !AllMatched([m])
  {
    assert [m][0].status != Matched;
  }

  lemma NoneCited(claims: seq<Claim>)
    ensures AllCited(claims, [])
  {
  }

  /** Exactly when the ledger-chain matcher finds nothing wrong. */
  lemma LedgerCleanExactly(entries: seq<LedgerEntry>, events: seq<ChainEvent>)
    requires LedgerMatches(entries, events).Ok?
    ensures AllMatched(LedgerMatches(entries, events).value) <==> Clean(EntryClaims(entries), events)
  {
    hide Verdicts, UncitedEvents, AllMatched, ClaimClean, EventsAt, EntryClaims;
    var claims := EntryClaims(entries);
    VerdictsClean(claims, events);
    UncitedClean(claims, events);
    AllMatchedConcat(Verdicts(claims, events).value, UncitedEvents(claims, events));
  }

  /** Exactly when the intent-chain matcher finds nothing wrong. */
  lemma IntentCleanExactly(intents: seq<Intent>, events: seq<ChainEvent>)
    requires IntentMatches(intents, events).Ok?
    ensures AllMatched(IntentMatches(intents, events).value) <==> Clean(IntentClaims(intents), events)
  {
    hide Verdicts, UncitedTransactions, AllMatched, ClaimClean, EventsAt, IntentClaims;
    var claims := IntentClaims(intents);
    VerdictsClean(claims, events);
    UncitedClean(claims, events);
    AllMatchedConcat(Verdicts(claims, events).value, UncitedTransactions(claims, events));
  }
}
