/** Intents against ledger entries (packages/reconciler/src/intent-ledger-matcher.ts): the matcher's scaled
    sums, maps and sets against a reference written with exact rational sums and plain filters. */
module IntentLedgerMatcher {
  import opened Wrappers
  import opened Decimal
  import opened MoneyMath
  import opened Grouping
  import opened Matching

  // ---------------------------------------------------------------- the reference

  function IntentIdOf(e: LedgerEntry): string {
    e.intentId
  }

  /** The entries that name an intent; the empty id names none. */
  function Linked(entries: seq<LedgerEntry>, intentId: string): seq<LedgerEntry> {
    if intentId == "" then [] else Select(entries, IntentIdOf, intentId)
  }

  predicate IsDebit(e: LedgerEntry) {
    e.entryType == Debit
  }

  function SameCurrency(c: string): LedgerEntry -> bool {
    (e: LedgerEntry) => e.money.currency == c
  }

  function OtherCurrency(c: string): LedgerEntry -> bool {
    (e: LedgerEntry) => e.money.currency != c
  }

  function Repeat(n: nat, code: Code): seq<Code> {
    seq(n, _ => code)
  }

  predicate AllParse(entries: seq<LedgerEntry>) {
    forall k :: 0 <= k < |entries| ==> Scaled(entries[k].money).Ok?
  }

  /** What is reported on an intent, given the entries linked to it. */
  ghost function Verdict(i: Intent, linked: seq<LedgerEntry>): Result<seq<Match>, LedgerError> {
    if linked == [] then Ok(if Done(i) then [Match(i.id, "", MissingLedger, [LedgerIsMissing])] else [])
    else if i.amount == None then Ok([Match(i.id, "", Matched, [])])
    else AmountVerdict(i.id, i.amount.value, Filter(linked, IsDebit))
  }

  ghost function AmountVerdict(id: string, m: Money, debits: seq<LedgerEntry>): Result<seq<Match>, LedgerError> {
    var same, foreign := Filter(debits, SameCurrency(m.currency)), Filter(debits, OtherCurrency(m.currency));
    if Scaled(m).Err? || !AllParse(same) then Err(InvalidAmount)
    else if debits == [] then Ok([Match(id, "", AmountMismatch, [AmountDiffers])])
    else
      var agree := ExactSum(same) == Exact(m);
      var codes := Repeat(|foreign|, CurrencyDiffers)
                   + (if !agree then [AmountDiffers]
                      else if exists k :: 0 <= k < |same| && same[k].money.decimals != m.decimals then [DecimalsDiffer]
                      else []);
      Ok([Match(id, "", if agree && foreign == [] then Matched else AmountMismatch, codes)])
  }

  ghost function Verdicts(intents: seq<Intent>, entries: seq<LedgerEntry>): Result<seq<Match>, LedgerError> {
    if intents == [] then Ok([])
    else
      var i := intents[|intents| - 1];
      var before :- Verdicts(intents[..|intents| - 1], entries);
      var verdict :- Verdict(i, Linked(entries, i.id));
      Ok(before + verdict)
  }

  predicate Known(intents: seq<Intent>, id: string) {
    exists k :: 0 <= k < |intents| && intents[k].id == id
  }

  /** An entry id counts as matched when some entry of that id names a known intent. */
  ghost predicate IdMatched(intents: seq<Intent>, entries: seq<LedgerEntry>, entryId: string) {
    exists k :: 0 <= k < |entries| && entries[k].id == entryId && entries[k].intentId != "" && Known(intents, entries[k].intentId)
  }

  function Ids(entries: seq<LedgerEntry>): set<string> {
    set e | e in entries :: e.id
  }

  predicate Reported(results: seq<Match>, intentId: string) {
    exists k :: 0 <= k < |results| && results[k].intentId == intentId
  }

  /** The second pass: entries that name an intent nobody has, once per intent id. */
  ghost function WithOrphans(results: seq<Match>, intents: seq<Intent>, all: seq<LedgerEntry>, entries: seq<LedgerEntry>): seq<Match> {
    if entries == [] then results
    else
      var e := entries[|entries| - 1];
      var before := WithOrphans(results, intents, all, entries[..|entries| - 1]);
      if e.intentId != "" && !IdMatched(intents, all, e.id) && !Reported(before, e.intentId) then
        before + [Match(e.intentId, "", MissingIntent, [IntentIsMissing])]
      else before
  }

  ghost function Matches(intents: seq<Intent>, entries: seq<LedgerEntry>): Result<seq<Match>, LedgerError> {
    var verdicts :- Verdicts(intents, entries);
    Ok(WithOrphans(verdicts, intents, entries, entries))
  }

  // ---------------------------------------------------------------- the matcher

  function At(index: map<string, seq<LedgerEntry>>, id: string): seq<LedgerEntry> {
    if id in index then index[id] else []
  }

  ghost predicate Indexes(index: map<string, seq<LedgerEntry>>, entries: seq<LedgerEntry>) {
    forall id :: At(index, id) == Linked(entries, id)
  }

  method IndexByIntentId(entries: seq<LedgerEntry>) returns (index: map<string, seq<LedgerEntry>>)
    ensures Indexes(index, entries)
  {
    index := map[];
    for k := 0 to |entries|
      invariant Indexes(index, entries[..k])
    {
      var e := entries[k];
      assert entries[..k + 1] == entries[..k] + [e];
      ghost var before := index;
      if e.intentId != "" {
        index := index[e.intentId := At(index, e.intentId) + [e]];
      }
      forall id
        ensures At(index, id) == Linked(entries[..k + 1], id)
      {
        SnocSelect(entries[..k], e, IntentIdOf, id);
        assert At(before, id) == Linked(entries[..k], id);
      }
    }
    assert entries[..|entries|] == entries;
  }

  method MaxDecimals(start: int, entries: seq<LedgerEntry>) returns (max: int)
    ensures max >= start && forall k :: 0 <= k < |entries| ==> max >= entries[k].money.decimals
  {
    max := start;
    for k := 0 to |entries|
      invariant max >= start && forall j :: 0 <= j < k ==> max >= entries[j].money.decimals
    {
      if entries[k].money.decimals > max {
        max := entries[k].money.decimals;
      }
    }
  }

  /** A total in units of 10^-decimals is the exact sum. */
  ghost predicate SumsTo(total: int, entries: seq<LedgerEntry>, decimals: nat) {
    total as real == ExactSum(entries) * Pow(decimals)
  }

  /** The debits' sum in units of 10^-decimals. */
  method SumAt(entries: seq<LedgerEntry>, decimals: nat) returns (r: Result<int, LedgerError>)
    requires forall k :: 0 <= k < |entries| ==> decimals >= entries[k].money.decimals
    ensures r.Ok? <==> AllParse(entries)
    ensures r.Ok? ==> SumsTo(r.value, entries, decimals)
    ensures r.Err? ==> r.error == InvalidAmount
  {
    hide Scaled, SumsTo, Pow10;
    var total := 0;
    SumOfNone(decimals);
    for k := 0 to |entries|
      invariant AllParse(entries[..k]) && SumsTo(total, entries[..k], decimals)
    {
      var m := entries[k].money;
      assert entries[..k + 1] == entries[..k] + [entries[k]];
      if Scaled(m).Err? {
        OnlyInvalid(m);
        assert !AllParse(entries[..k + 1]);
        return Err(Scaled(m).error);
      }
      SumSnoc(total, entries[..k], entries[k], decimals);
      total := total + Scaled(m).value * Pow10(decimals - m.decimals);
    }
    assert entries[..|entries|] == entries;
    r := Ok(total);
  }

  lemma SumOfNone(decimals: nat)
    ensures SumsTo(0, [], decimals)
  {
  }

  lemma SumSnoc(total: int, entries: seq<LedgerEntry>, e: LedgerEntry, decimals: nat)
    requires SumsTo(total, entries, decimals) && Scaled(e.money).Ok? && e.money.decimals <= decimals
    ensures SumsTo(total + Scaled(e.money).value * Pow10(decimals - e.money.decimals), entries + [e], decimals)
  {
    hide Scaled, Pow, Pow10, Rational;
    assert (entries + [e])[..|entries|] == entries;
    Normalized(Scaled(e.money).value, e.money.decimals, decimals);
    Distribute(ExactSum(entries), Exact(e.money), Pow(decimals));
  }

  lemma Distribute(a: real, b: real, p: real)
    ensures (a + b) * p == a * p + b * p
  {
  }

  lemma OnlyInvalid(m: Money)
    requires Scaled(m).Err?
    ensures Scaled(m).error == InvalidAmount
  {
  }

  /** The comparison for an intent that has an amount and debits: everything is brought to the largest
      decimal base first. */
  method CompareDebits(id: string, m: Money, debits: seq<LedgerEntry>) returns (r: Result<Match, LedgerError>)
    requires debits != []
    ensures var v := AmountVerdict(id, m, debits);
            if r.Ok? then v == Ok([r.value]) else v == Err(r.error)
  {
    hide ParseAmount, Filter, ExactSum, Exact, Pow, Pow10;
    var codes: seq<Code> := [];
    var foreign := Filter(debits, OtherCurrency(m.currency));
    for k := 0 to |foreign|
      invariant codes == Repeat(k, CurrencyDiffers)
    {
      codes := codes + [CurrencyDiffers];
    }
    var same := Filter(debits, SameCurrency(m.currency));
    var maxDec := MaxDecimals(m.decimals, same);
    var sawDecimalsMismatch := exists k :: 0 <= k < |same| && same[k].money.decimals != m.decimals;
    if Scaled(m).Err? {
      OnlyInvalid(m);
      return Err(Scaled(m).error);
    }
    ParsedDecimals(m);
    var intentNorm := Scaled(m).value * Pow10(maxDec - m.decimals);
    var debitTotalNorm := SumAt(same, maxDec);
    if debitTotalNorm.Err? { return Err(debitTotalNorm.error); }
    var amountMatches := intentNorm == debitTotalNorm.value;
    TotalsAgree(m, maxDec, debitTotalNorm.value, ExactSum(same));
    assert codes + [] == codes;
    if !amountMatches {
      codes := codes + [AmountDiffers];
    } else if sawDecimalsMismatch {
      codes := codes + [DecimalsDiffer];
    }
    var cleanlyMatched := amountMatches && |foreign| == 0;
    r := Ok(Match(id, "", if cleanlyMatched then Matched else AmountMismatch, codes));
  }

  lemma ParsedDecimals(m: Money)
    requires Scaled(m).Ok?
    ensures m.decimals >= 0
  {
  }

  lemma TotalsAgree(m: Money, k: nat, total: int, sum: real)
    requires Scaled(m).Ok? && m.decimals <= k && total as real == sum * Pow(k)
    ensures Scaled(m).value * Pow10(k - m.decimals) == total <==> sum == Exact(m)
  {
    hide ParseAmount, Pow10, Rational, Pow;
    Normalized(Scaled(m).value, m.decimals, k);
    PowPositive(k);
    SameScaled(sum, Exact(m), Pow(k));
  }

  method MatchIntent(i: Intent, linked: seq<LedgerEntry>) returns (r: Result<seq<Match>, LedgerError>)
    ensures r == Verdict(i, linked)
  {
    hide Filter, AmountVerdict, Scaled;
    if |linked| == 0 {
      if i.status == "executed" || i.status == "verified" {
        return Ok([Match(i.id, "", MissingLedger, [LedgerIsMissing])]);
      }
      return Ok([]);
    }
    var debits := Filter(linked, IsDebit);
    if |debits| == 0 {
      if i.amount.Some? {
        NoDebits(i.id, i.amount.value);
        if Scaled(i.amount.value).Err? { return Err(InvalidAmount); }
        return Ok([Match(i.id, "", AmountMismatch, [AmountDiffers])]);
      }
      return Ok([Match(i.id, "", Matched, [])]);
    }
    if i.amount.Some? {
      var m := CompareDebits(i.id, i.amount.value, debits);
      if m.Err? { return Err(m.error); }
      return Ok([m.value]);
    }
    r := Ok([Match(i.id, "", Matched, [])]);
  }

  lemma NoDebits(id: string, m: Money)
    ensures AmountVerdict(id, m, []) == if Scaled(m).Err? then Err(InvalidAmount) else Ok([Match(id, "", AmountMismatch, [AmountDiffers])])
  {
  }

  /** The set holds exactly the matched entry ids. */
  ghost predicate Tracks(ids: set<string>, intents: seq<Intent>, entries: seq<LedgerEntry>) {
    forall id :: id in ids <==> IdMatched(intents, entries, id)
  }

  /** First pass: one verdict per intent, noting the entry ids it matched. */
  method MatchIntents(intents: seq<Intent>, entries: seq<LedgerEntry>) returns (r: Result<seq<Match>, LedgerError>, matchedEntryIds: set<string>)
    ensures r == Verdicts(intents, entries)
    ensures r.Ok? ==> Tracks(matchedEntryIds, intents, entries)
  {
    hide Verdict, Linked, Tracks;
    var index := IndexByIntentId(entries);
    var results: seq<Match> := [];
    matchedEntryIds := {};
    TracksNone(entries);
    assert intents[..0] == [];
    for k := 0 to |intents|
      invariant Verdicts(intents[..k], entries) == Ok(results)
      invariant Tracks(matchedEntryIds, intents[..k], entries)
    {
      var i := intents[k];
      assert intents[..k + 1][..k] == intents[..k];
      var linked := At(index, i.id);
      assert linked == Linked(entries, i.id);
      var verdict := MatchIntent(i, linked);
      if verdict.Err? {
        VerdictsFail(intents, entries, k + 1);
        return Err(verdict.error), matchedEntryIds;
      }
      TracksMore(matchedEntryIds, intents, entries, k);
      matchedEntryIds := matchedEntryIds + Ids(linked);
      results := results + verdict.value;
    }
    assert intents[..|intents|] == intents;
    r := Ok(results);
  }

  lemma TracksNone(entries: seq<LedgerEntry>)
    ensures Tracks({}, [], entries)
  {
  }

  lemma TracksMore(ids: set<string>, intents: seq<Intent>, entries: seq<LedgerEntry>, k: nat)
    requires k < |intents| && Tracks(ids, intents[..k], entries)
    ensures Tracks(ids + Ids(Linked(entries, intents[k].id)), intents[..k + 1], entries)
  {
    MatchedIds(intents, entries, k, intents[k].id);
  }

  /** match: the verdicts, then the orphaned entries. */
  method MatchAll(intents: seq<Intent>, entries: seq<LedgerEntry>) returns (r: Result<seq<Match>, LedgerError>)
    ensures r == Matches(intents, entries)
  {
    hide IdMatched, Verdicts, Ids;
    var verdicts, matchedEntryIds := MatchIntents(intents, entries);
    if verdicts.Err? { return Err(verdicts.error); }
    var results := verdicts.value;
    for k := 0 to |entries|
      invariant results == WithOrphans(verdicts.value, intents, entries, entries[..k])
    {
      var e := entries[k];
      assert entries[..k + 1][..k] == entries[..k];
      TracksId(matchedEntryIds, intents, entries, e.id);
      if e.intentId != "" && e.id !in matchedEntryIds {
        var alreadyReported := exists j :: 0 <= j < |results| && results[j].intentId == e.intentId;
        if !alreadyReported {
          results := results + [Match(e.intentId, "", MissingIntent, [IntentIsMissing])];
        }
      }
    }
    assert entries[..|entries|] == entries;
    r := Ok(results);
  }

  lemma TracksId(ids: set<string>, intents: seq<Intent>, entries: seq<LedgerEntry>, id: string)
    requires Tracks(ids, intents, entries)
    ensures id in ids <==> IdMatched(intents, entries, id)
  {
  }

  lemma {:induction false} VerdictsFail(intents: seq<Intent>, entries: seq<LedgerEntry>, k: nat)
    requires k <= |intents| && Verdicts(intents[..k], entries).Err?
    ensures Verdicts(intents, entries) == Verdicts(intents[..k], entries)
  {
    if k < |intents| {
      assert intents[..|intents| - 1][..k] == intents[..k];
      VerdictsFail(intents[..|intents| - 1], entries, k);
    } else {
      assert intents[..k] == intents;
    }
  }

  /** The ids matched by one more intent are those of the entries linked to it. */
  lemma MatchedIds(intents: seq<Intent>, entries: seq<LedgerEntry>, k: nat, id: string)
    requires k < |intents| && intents[k].id == id
    ensures forall entryId :: IdMatched(intents[..k + 1], entries, entryId)
              <==> IdMatched(intents[..k], entries, entryId) || entryId in Ids(Linked(entries, id))
  {
    hide Linked;
    LinkedMembers(entries, id);
    KnownSnoc(intents, k);
    forall entryId
      ensures IdMatched(intents[..k + 1], entries, entryId)
              <==> IdMatched(intents[..k], entries, entryId) || entryId in Ids(Linked(entries, id))
    {
      if entryId in Ids(Linked(entries, id)) {
        var e :| e in Linked(entries, id) && e.id == entryId;
        var j :| 0 <= j < |entries| && entries[j] == e;
        assert e.intentId == id;
        assert Known(intents[..k + 1], id);
        assert IdMatched(intents[..k + 1], entries, entryId);
      }
      if IdMatched(intents[..k + 1], entries, entryId) {
        var j :| 0 <= j < |entries| && entries[j].id == entryId && entries[j].intentId != "" && Known(intents[..k + 1], entries[j].intentId);
        if entries[j].intentId == id {
          assert entries[j] in Linked(entries, id);
        }
      }
    }
  }

  lemma KnownSnoc(intents: seq<Intent>, k: nat)
    requires k < |intents|
    ensures forall id :: Known(intents[..k + 1], id) <==> Known(intents[..k], id) || id == intents[k].id
  {
    assert intents[..k + 1] == intents[..k] + [intents[k]];
    forall id
      ensures Known(intents[..k + 1], id) <==> Known(intents[..k], id) || id == intents[k].id
    {
      if Known(intents[..k], id) {
        var j :| 0 <= j < k && intents[..k][j].id == id;
        assert intents[..k + 1][j].id == id;
      }
      assert intents[..k + 1][k].id == intents[k].id;
    }
  }

  lemma LinkedMembers(entries: seq<LedgerEntry>, id: string)
    ensures forall e :: e in Linked(entries, id) <==> e in entries && e.intentId == id && id != ""
  {
    SelectMembers(entries, IntentIdOf, id);
  }

  // ---------------------------------------------------------------- when everything matches

  /** What a clean intent is: executed or verified ones have entries, and an amount with entries has debits,
      all in its currency, that sum to it exactly. */
  ghost predicate IntentClean(i: Intent, linked: seq<LedgerEntry>) {
    && (Done(i) ==> linked != [])
    && (i.amount.Some? && linked != [] ==> AmountClean(i.amount.value, Filter(linked, IsDebit)))
  }

  ghost predicate AmountClean(m: Money, debits: seq<LedgerEntry>) {
    && debits != [] && (forall k :: 0 <= k < |debits| ==> debits[k].money.currency == m.currency)
    && ExactSum(debits) == Exact(m)
  }

  /** No foreign debit exactly when all debits are in the currency, and then the currency filter keeps all. */
  lemma {:induction false} NoForeign(debits: seq<LedgerEntry>, c: string)
    ensures Filter(debits, OtherCurrency(c)) == [] <==> forall k :: 0 <= k < |debits| ==> debits[k].money.currency == c
    ensures Filter(debits, OtherCurrency(c)) == [] ==> Filter(debits, SameCurrency(c)) == debits
  {
    if debits != [] {
      var n := |debits| - 1;
      NoForeign(debits[..n], c);
      assert debits == debits[..n] + [debits[n]];
    }
  }

  lemma VerdictClean(i: Intent, linked: seq<LedgerEntry>)
    requires Verdict(i, linked).Ok?
    ensures AllMatched(Verdict(i, linked).value) <==> IntentClean(i, linked)
  {
    hide Filter, ExactSum, Exact, Scaled, AllParse;
    var results := Verdict(i, linked).value;
    assert results != [] ==> (AllMatched(results) <==> results[0].status == Matched);
    if linked != [] && i.amount.Some? {
      NoForeign(Filter(linked, IsDebit), i.amount.value.currency);
    }
  }

  lemma {:induction false} VerdictsClean(intents: seq<Intent>, entries: seq<LedgerEntry>)
    requires Verdicts(intents, entries).Ok?
    ensures AllMatched(Verdicts(intents, entries).value)
            <==> forall k :: 0 <= k < |intents| ==> IntentClean(intents[k], Linked(entries, intents[k].id))
    ensures forall id :: Reported(Verdicts(intents, entries).value, id) ==> Known(intents, id)
  {
    hide IntentClean, Linked, Verdict;
    if intents != [] {
      var n := |intents| - 1;
      var i := intents[n];
      var before, verdict := Verdicts(intents[..n], entries).value, Verdict(i, Linked(entries, i.id)).value;
      VerdictsClean(intents[..n], entries);
      VerdictClean(i, Linked(entries, i.id));
      AllMatchedConcat(before, verdict);
      assert intents == intents[..n] + [i];
      forall id | Reported(before + verdict, id)
        ensures Known(intents, id)
      {
        if Reported(before, id) {
          var k :| 0 <= k < n && intents[..n][k].id == id;
          assert intents[k].id == id;
        } else {
          ReportedConcat(before, verdict, id);
          var k :| 0 <= k < |verdict| && verdict[k].intentId == id;
          VerdictId(i, Linked(entries, i.id), k);
        }
      }
    }
  }

  lemma ReportedConcat(a: seq<Match>, b: seq<Match>, id: string)
    ensures Reported(a + b, id) ==> Reported(a, id) || Reported(b, id)
  {
    if k :| 0 <= k < |a + b| && (a + b)[k].intentId == id {
      assert if k < |a| then a[k].intentId == id else b[k - |a|].intentId == id;
    }
  }

  lemma VerdictId(i: Intent, linked: seq<LedgerEntry>, k: nat)
    requires Verdict(i, linked).Ok? && k < |Verdict(i, linked).value|
    ensures Verdict(i, linked).value[k].intentId == i.id
  {
  }

  lemma {:induction false} OrphansClean(results: seq<Match>, intents: seq<Intent>, all: seq<LedgerEntry>, entries: seq<LedgerEntry>)
    ensures results <= WithOrphans(results, intents, all, entries)
    ensures AllMatched(WithOrphans(results, intents, all, entries)) ==> WithOrphans(results, intents, all, entries) == results
    ensures WithOrphans(results, intents, all, entries) == results
            <==> forall k :: 0 <= k < |entries| ==>
                   entries[k].intentId == "" || IdMatched(intents, all, entries[k].id) || Reported(results, entries[k].intentId)
  {
    hide IdMatched, Reported;
    if entries != [] {
      var n := |entries| - 1;
      OrphansClean(results, intents, all, entries[..n]);
      assert entries == entries[..n] + [entries[n]];
      var before, after := WithOrphans(results, intents, all, entries[..n]), WithOrphans(results, intents, all, entries);
      if after != before {
        assert after[|before|].status == MissingIntent;
      }
    }
  }

  ghost predicate UniqueIds(entries: seq<LedgerEntry>) {
    forall j, k :: 0 <= j < k < |entries| ==> entries[j].id != entries[k].id
  }

  /** Every intent is clean, and every entry that names an intent shares its id with one whose intent exists. */
  ghost predicate Clean(intents: seq<Intent>, entries: seq<LedgerEntry>) {
    && (forall k :: 0 <= k < |intents| ==> IntentClean(intents[k], Linked(entries, intents[k].id)))
    && (forall k :: 0 <= k < |entries| ==> entries[k].intentId == "" || IdMatched(intents, entries, entries[k].id))
  }

  /** Exactly when this matcher finds nothing wrong. */
  lemma CleanExactly(intents: seq<Intent>, entries: seq<LedgerEntry>)
    requires Matches(intents, entries).Ok?
    ensures AllMatched(Matches(intents, entries).value) <==> Clean(intents, entries)
  {
    hide IntentClean, Linked, Verdicts, WithOrphans;
    var verdicts, all := Verdicts(intents, entries).value, Matches(intents, entries).value;
    VerdictsClean(intents, entries);
    OrphansClean(verdicts, intents, entries, entries);
    assert AllMatched(all) ==> all == verdicts;
    forall k | 0 <= k < |entries| && entries[k].intentId != "" && Known(intents, entries[k].intentId)
      ensures IdMatched(intents, entries, entries[k].id)
    {
    }
    assert AllMatched(all) <==> AllMatched(verdicts) && all == verdicts;
  }

  /** With unique entry ids: every entry's intent exists. */
  lemma UniqueIdsMatch(intents: seq<Intent>, entries: seq<LedgerEntry>, k: nat)
    requires UniqueIds(entries) && k < |entries| && entries[k].intentId != ""
    ensures IdMatched(intents, entries, entries[k].id) <==> Known(intents, entries[k].intentId)
  {
    if IdMatched(intents, entries, entries[k].id) {
      var j :| 0 <= j < |entries| && entries[j].id == entries[k].id && entries[j].intentId != "" && Known(intents, entries[j].intentId);
      assert j == k;
    }
  }
}
