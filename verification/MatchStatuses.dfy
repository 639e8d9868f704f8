/** What the intent-ledger matcher reports, read off the intents and entries themselves
    (packages/reconciler/src/intent-ledger-matcher.ts). */
module MatchStatuses {
  import opened Wrappers
  import opened MoneyMath
  import opened Grouping
  import opened Matching
  import IL = IntentLedgerMatcher

  // ---------------------------------------------------------------- counting matches

  /** Matches of a status, on one intent id or transaction, or on any. */
  datatype Pick = Pick(on: Option<string>, tx: Option<string>, status: Status) {
    predicate Names(intentId: string, txHash: string) {
      (on == None || on == Some(intentId)) && (tx == None || tx == Some(txHash))
    }
  }

  function Fits(q: Pick): Match -> bool {
    (m: Match) => m.status == q.status && q.Names(m.intentId, m.txHash)
  }

  // ---------------------------------------------------------------- intents and entries

  predicate NamedBy(e: LedgerEntry, id: string) {
    id != "" && e.intentId == id
  }

  predicate DebitFor(e: LedgerEntry, id: string) {
    NamedBy(e, id) && e.entryType == Debit
  }

  ghost predicate HasEntry(entries: seq<LedgerEntry>, id: string) {
    exists e :: e in entries && NamedBy(e, id)
  }

  /** The exact sum of the debits that name an intent, in one currency. */
  function DebitTotal(entries: seq<LedgerEntry>, id: string, c: string): real {
    if entries == [] then 0.0
    else
      var e := entries[|entries| - 1];
      DebitTotal(entries[..|entries| - 1], id, c) + if DebitFor(e, id) && e.money.currency == c then Exact(e.money) else 0.0
  }

  /** Some debit names the intent, all that do are in its currency, and they add up to its amount exactly. */
  ghost predicate Agrees(id: string, m: Money, entries: seq<LedgerEntry>) {
    && (exists e :: e in entries && DebitFor(e, id))
    && (forall e :: e in entries && DebitFor(e, id) ==> e.money.currency == m.currency)
    && DebitTotal(entries, id, m.currency) == Exact(m)
  }

  ghost predicate Unrecorded(i: Intent, entries: seq<LedgerEntry>) {
    i.status in {"executed", "verified"} && !HasEntry(entries, i.id)
  }

  ghost predicate Contradicted(i: Intent, entries: seq<LedgerEntry>) {
    HasEntry(entries, i.id) && i.amount.Some? && !Agrees(i.id, i.amount.value, entries)
  }

  ghost predicate Confirmed(i: Intent, entries: seq<LedgerEntry>) {
    HasEntry(entries, i.id) && (i.amount.Some? ==> Agrees(i.id, i.amount.value, entries))
  }

  function DebitsOf(entries: seq<LedgerEntry>, id: string): seq<LedgerEntry> {
    Filter(IL.Linked(entries, id), IL.IsDebit)
  }

  lemma DebitsAre(entries: seq<LedgerEntry>, id: string)
    ensures forall e :: e in DebitsOf(entries, id) <==> e in entries && DebitFor(e, id)
    ensures IL.Linked(entries, id) != [] <==> HasEntry(entries, id)
    ensures DebitsOf(entries, id) != [] <==> exists e :: e in entries && DebitFor(e, id)
  {
    hide IL.Linked;
    IL.LinkedMembers(entries, id);
    FilterMembers(IL.Linked(entries, id), IL.IsDebit);
    var linked, debits := IL.Linked(entries, id), DebitsOf(entries, id);
    if linked != [] {
      assert linked[0] in linked;
    }
    if debits != [] {
      assert debits[0] in debits;
    }
  }

  lemma DebitsSnoc(entries: seq<LedgerEntry>, id: string)
    requires entries != []
    ensures var n := |entries| - 1;
            DebitsOf(entries, id) == DebitsOf(entries[..n], id) + if DebitFor(entries[n], id) then [entries[n]] else []
  {
    var n := |entries| - 1;
    assert IL.Linked(entries, id) == IL.Linked(entries[..n], id) + if NamedBy(entries[n], id) then [entries[n]] else [];
    if NamedBy(entries[n], id) {
      FilterSnoc(IL.Linked(entries[..n], id), entries[n], IL.IsDebit);
    }
  }

  lemma {:induction false} DebitsSum(entries: seq<LedgerEntry>, id: string, c: string)
    ensures ExactSum(Filter(DebitsOf(entries, id), IL.SameCurrency(c))) == DebitTotal(entries, id, c)
  {
    hide Exact, DebitsOf;
    if entries == [] {
      NoDebits(id);
    } else {
      var n := |entries| - 1;
      var e := entries[n];
      DebitsSum(entries[..n], id, c);
      DebitsSnoc(entries, id);
      if DebitFor(e, id) {
        FilterSnoc(DebitsOf(entries[..n], id), e, IL.SameCurrency(c));
        var same := Filter(DebitsOf(entries[..n], id), IL.SameCurrency(c));
        SumSnoc(same, e);
        assert same + [] == same;
      } else {
        assert DebitsOf(entries[..n], id) + [] == DebitsOf(entries[..n], id);
      }
    }
  }

  lemma NoDebits(id: string)
    ensures DebitsOf([], id) == []
  {
  }

  lemma SumSnoc(es: seq<LedgerEntry>, e: LedgerEntry)
    ensures ExactSum(es + [e]) == ExactSum(es) + Exact(e.money)
  {
    assert (es + [e])[..|es|] == es;
  }

  /** What is reported on one intent. */
  lemma IntentVerdict(i: Intent, entries: seq<LedgerEntry>)
    requires IL.Verdict(i, IL.Linked(entries, i.id)).Ok?
    ensures var out := IL.Verdict(i, IL.Linked(entries, i.id)).value;
            && (Unrecorded(i, entries) ==> out == [Match(i.id, "", MissingLedger, [LedgerIsMissing])])
            && (Contradicted(i, entries) ==> |out| == 1 && out[0] == Match(i.id, "", AmountMismatch, out[0].codes))
            && (Confirmed(i, entries) ==> |out| == 1 && out[0] == Match(i.id, "", Matched, out[0].codes))
            && (out != [] ==> Unrecorded(i, entries) || Contradicted(i, entries) || Confirmed(i, entries))
  {
    hide IL.Linked, ExactSum, Exact, Filter, Scaled, DebitTotal, IL.AllParse;
    DebitsAre(entries, i.id);
    if i.amount.Some? {
      AmountVerdictIs(i.id, i.amount.value, entries);
    }
  }

  lemma AmountVerdictIs(id: string, m: Money, entries: seq<LedgerEntry>)
    ensures var v := IL.AmountVerdict(id, m, DebitsOf(entries, id));
            v.Ok? ==> |v.value| == 1 && v.value[0] == Match(id, "", if Agrees(id, m, entries) then Matched else AmountMismatch, v.value[0].codes)
  {
    hide IL.Linked, ExactSum, Exact, Scaled, DebitTotal, IL.AllParse;
    var debits := DebitsOf(entries, id);
    DebitsAre(entries, id);
    DebitsSum(entries, id, m.currency);
    IL.NoForeign(debits, m.currency);
    assert (forall e :: e in debits ==> e.money.currency == m.currency)
      <==> forall k :: 0 <= k < |debits| ==> debits[k].money.currency == m.currency;
  }

  // ---------------------------------------------------------------- discrepancy codes

  predicate ForeignDebit(e: LedgerEntry, id: string, c: string) {
    DebitFor(e, id) && e.money.currency != c
  }

  function Foreign(id: string, c: string): LedgerEntry -> bool {
    (e: LedgerEntry) => ForeignDebit(e, id, c)
  }

  lemma {:induction false} ForeignCount(entries: seq<LedgerEntry>, id: string, c: string)
    ensures |Filter(DebitsOf(entries, id), IL.OtherCurrency(c))| == Count(entries, Foreign(id, c))
  {
    hide DebitsOf;
    if entries == [] {
      NoDebits(id);
    } else {
      var n := |entries| - 1;
      var e := entries[n];
      ForeignCount(entries[..n], id, c);
      DebitsSnoc(entries, id);
      if DebitFor(e, id) {
        FilterSnoc(DebitsOf(entries[..n], id), e, IL.OtherCurrency(c));
      } else {
        assert DebitsOf(entries[..n], id) + [] == DebitsOf(entries[..n], id);
      }
      CountSnoc(entries, Foreign(id, c));
    }
  }

  lemma RepeatCount(n: nat, code: Code)
    ensures multiset(IL.Repeat(n, code))[code] == n && forall x :: x in IL.Repeat(n, code) ==> x == code
    decreases n
  {
    if n > 0 {
      RepeatCount(n - 1, code);
      assert IL.Repeat(n, code) == IL.Repeat(n - 1, code) + [code];
    }
  }

  /** The codes on an intent with an amount and entries: one for each debit in another currency, one if the
      debits in its currency do not add up, and else one if some debit is scaled otherwise. */
  lemma IntentCodes(i: Intent, entries: seq<LedgerEntry>)
    requires IL.Verdict(i, IL.Linked(entries, i.id)).Ok? && HasEntry(entries, i.id) && i.amount.Some?
    ensures |IL.Verdict(i, IL.Linked(entries, i.id)).value| == 1
    ensures var m, codes := i.amount.value, IL.Verdict(i, IL.Linked(entries, i.id)).value[0].codes;
            var sum, debited := DebitTotal(entries, i.id, m.currency) == Exact(m), exists e :: e in entries && DebitFor(e, i.id);
            && (debited ==> multiset(codes)[CurrencyDiffers] == Count(entries, Foreign(i.id, m.currency)))
            && (AmountDiffers in codes <==> !debited || !sum)
            && (DecimalsDiffer in codes <==> debited && sum && exists e :: e in entries && DebitFor(e, i.id) && e.money.currency == m.currency && e.money.decimals != m.decimals)
            && forall x :: x in codes ==> x in {CurrencyDiffers, AmountDiffers, DecimalsDiffer}
  {
    hide IL.Linked, ExactSum, Exact, Filter, Scaled, DebitTotal, IL.AllParse, Count, IL.Repeat;
    var m, debits := i.amount.value, DebitsOf(entries, i.id);
    DebitsAre(entries, i.id);
    DebitsSum(entries, i.id, m.currency);
    ForeignCount(entries, i.id, m.currency);
    FilterMembers(debits, IL.SameCurrency(m.currency));
    var same := Filter(debits, IL.SameCurrency(m.currency));
    assert (exists k :: 0 <= k < |same| && same[k].money.decimals != m.decimals) <==> exists e :: e in same && e.money.decimals != m.decimals;
    RepeatCount(|Filter(debits, IL.OtherCurrency(m.currency))|, CurrencyDiffers);
  }

  // ---------------------------------------------------------------- how often, over all intents

  ghost function IsUnrecorded(entries: seq<LedgerEntry>, q: Pick): Intent -> bool {
    (i: Intent) => q.Names(i.id, "") && Unrecorded(i, entries)
  }

  ghost function IsContradicted(entries: seq<LedgerEntry>, q: Pick): Intent -> bool {
    (i: Intent) => q.Names(i.id, "") && Contradicted(i, entries)
  }

  ghost function IsConfirmed(entries: seq<LedgerEntry>, q: Pick): Intent -> bool {
    (i: Intent) => q.Names(i.id, "") && Confirmed(i, entries)
  }

  lemma OneIntent(i: Intent, entries: seq<LedgerEntry>, q: Pick)
    requires IL.Verdict(i, IL.Linked(entries, i.id)).Ok?
    ensures Count(IL.Verdict(i, IL.Linked(entries, i.id)).value, Fits(q))
         == if || (q.status == MissingLedger && IsUnrecorded(entries, q)(i))
               || (q.status == AmountMismatch && IsContradicted(entries, q)(i))
               || (q.status == Matched && IsConfirmed(entries, q)(i)) then 1 else 0
  {
    hide IL.Linked, IL.Verdict, HasEntry, Agrees, Count;
    var out := IL.Verdict(i, IL.Linked(entries, i.id)).value;
    IntentVerdict(i, entries);
    if out == [] {
      CountOne(Match("", "", Matched, []), Fits(q));
    } else {
      assert out == [out[0]];
      CountOne(out[0], Fits(q));
    }
  }

  lemma {:induction false} IntentTally(intents: seq<Intent>, entries: seq<LedgerEntry>, q: Pick)
    requires IL.Verdicts(intents, entries).Ok?
    ensures Count(IL.Verdicts(intents, entries).value, Fits(q))
         == match q.status
            case MissingLedger => Count(intents, IsUnrecorded(entries, q))
            case AmountMismatch => Count(intents, IsContradicted(entries, q))
            case Matched => Count(intents, IsConfirmed(entries, q))
            case _ => 0
  {
    hide IL.Linked, IL.Verdict, Count, IsUnrecorded, IsContradicted, IsConfirmed;
    if intents == [] {
      NothingCounted(entries, q);
    } else {
      var n := |intents| - 1;
      IntentTally(intents[..n], entries, q);
      OneIntent(intents[n], entries, q);
      CountConcat(IL.Verdicts(intents[..n], entries).value, IL.Verdict(intents[n], IL.Linked(entries, intents[n].id)).value, Fits(q));
      CountSnoc(intents, IsUnrecorded(entries, q));
      CountSnoc(intents, IsContradicted(entries, q));
      CountSnoc(intents, IsConfirmed(entries, q));
    }
  }

  lemma NothingCounted(entries: seq<LedgerEntry>, q: Pick)
    ensures Count([], IsUnrecorded(entries, q)) == Count([], IsContradicted(entries, q)) == Count([], IsConfirmed(entries, q)) == 0
    ensures Count([], Fits(q)) == 0
  {
  }

  // ---------------------------------------------------------------- entries whose intent does not exist

  /** No entry of the same id names an intent of the list -- so in particular this one does not. */
  ghost predicate OrphanEntry(intents: seq<Intent>, entries: seq<LedgerEntry>, e: LedgerEntry) {
    && e.intentId != ""
    && forall f, i :: f in entries && f.id == e.id && f.intentId != "" && i in intents ==> i.id != f.intentId
  }

  /** The intent ids that only orphans name. */
  ghost function Orphans(intents: seq<Intent>, all: seq<LedgerEntry>, entries: seq<LedgerEntry>, q: Pick): set<string> {
    set e | e in entries && OrphanEntry(intents, all, e) && q.Names(e.intentId, "") :: e.intentId
  }

  lemma OrphanIsUnmatched(intents: seq<Intent>, entries: seq<LedgerEntry>, e: LedgerEntry)
    ensures OrphanEntry(intents, entries, e) <==> e.intentId != "" && !IL.IdMatched(intents, entries, e.id)
    ensures e in entries && OrphanEntry(intents, entries, e) ==> !IL.Known(intents, e.intentId)
  {
    if IL.IdMatched(intents, entries, e.id) {
      var k :| 0 <= k < |entries| && entries[k].id == e.id && entries[k].intentId != "" && IL.Known(intents, entries[k].intentId);
      var n :| 0 <= n < |intents| && intents[n].id == entries[k].intentId;
      assert entries[k] in entries && intents[n] in intents;
    }
    if e.intentId != "" && !OrphanEntry(intents, entries, e) {
      var f, i :| f in entries && f.id == e.id && f.intentId != "" && i in intents && i.id == f.intentId;
      var k :| 0 <= k < |entries| && entries[k] == f;
      var n :| 0 <= n < |intents| && intents[n] == i;
      assert IL.Known(intents, entries[k].intentId);
    }
  }

  /** Each id that only orphans name is reported once, and nothing else is. */
  lemma {:induction false} OrphanTally(results: seq<Match>, intents: seq<Intent>, all: seq<LedgerEntry>, entries: seq<LedgerEntry>, q: Pick)
    requires forall id :: IL.Reported(results, id) ==> IL.Known(intents, id)
    requires forall e :: e in entries ==> e in all
    ensures Count(IL.WithOrphans(results, intents, all, entries), Fits(q))
         == Count(results, Fits(q)) + if q.status == MissingIntent then |Orphans(intents, all, entries, q)| else 0
    ensures forall id :: IL.Reported(IL.WithOrphans(results, intents, all, entries), id)
                         <==> IL.Reported(results, id) || id in Orphans(intents, all, entries, q.(on := None, tx := None))
  {
    hide IL.IdMatched, IL.Known, IL.Reported, OrphanEntry, Count;
    if entries != [] {
      var n := |entries| - 1;
      var e := entries[n];
      var before := IL.WithOrphans(results, intents, all, entries[..n]);
      OrphanTally(results, intents, all, entries[..n], q);
      OrphanIsUnmatched(intents, all, e);
      OrphansSnoc(intents, all, entries, q);
      OrphansSnoc(intents, all, entries, q.(on := None, tx := None));
      var extra := Match(e.intentId, "", MissingIntent, [IntentIsMissing]);
      CountConcat(before, [extra], Fits(q));
      CountOne(extra, Fits(q));
      ReportedMore(before, extra);
      AnyOrphan(intents, all, entries[..n], q, e.intentId);
    }
  }

  lemma ReportedMore(before: seq<Match>, extra: Match)
    ensures forall id :: IL.Reported(before + [extra], id) <==> IL.Reported(before, id) || id == extra.intentId
  {
    var after := before + [extra];
    forall id
      ensures IL.Reported(after, id) <==> IL.Reported(before, id) || id == extra.intentId
    {
      if IL.Reported(before, id) {
        var k :| 0 <= k < |before| && before[k].intentId == id;
        assert after[k].intentId == id;
      }
      assert after[|before|] == extra;
      if IL.Reported(after, id) {
        var k :| 0 <= k < |after| && after[k].intentId == id;
        assert k < |before| ==> before[k].intentId == id;
      }
    }
  }

  lemma OrphansSnoc(intents: seq<Intent>, all: seq<LedgerEntry>, entries: seq<LedgerEntry>, q: Pick)
    requires entries != []
    ensures var n := |entries| - 1;
            Orphans(intents, all, entries, q)
            == Orphans(intents, all, entries[..n], q)
               + if OrphanEntry(intents, all, entries[n]) && q.Names(entries[n].intentId, "") then {entries[n].intentId} else {}
  {
    hide OrphanEntry;
    var n := |entries| - 1;
    assert entries == entries[..n] + [entries[n]];
  }

  lemma AnyOrphan(intents: seq<Intent>, all: seq<LedgerEntry>, entries: seq<LedgerEntry>, q: Pick, id: string)
    ensures id in Orphans(intents, all, entries, q) <==> id in Orphans(intents, all, entries, q.(on := None, tx := None)) && q.Names(id, "")
  {
    hide OrphanEntry;
  }

  /** The intent-ledger matcher, status by status: how often each intent id is reported as what. */
  lemma IntentLedgerStatuses(intents: seq<Intent>, entries: seq<LedgerEntry>, q: Pick)
    requires IL.Matches(intents, entries).Ok?
    ensures Count(IL.Matches(intents, entries).value, Fits(q))
         == match q.status
            case MissingLedger => Count(intents, IsUnrecorded(entries, q))
            case AmountMismatch => Count(intents, IsContradicted(entries, q))
            case Matched => Count(intents, IsConfirmed(entries, q))
            case MissingIntent => |Orphans(intents, entries, entries, q)|
            case _ => 0
  {
    hide IL.Verdicts, IL.WithOrphans, Count, Orphans, IsUnrecorded, IsContradicted, IsConfirmed, IL.Reported, IL.Known;
    IntentTally(intents, entries, q);
    IL.VerdictsClean(intents, entries);
    OrphanTally(IL.Verdicts(intents, entries).value, intents, entries, entries, q);
  }

  /** With unique entry ids: the ids that entries name and no intent has. */
  lemma OrphansAreUnknown(intents: seq<Intent>, entries: seq<LedgerEntry>, q: Pick, id: string)
    requires IL.UniqueIds(entries)
    ensures id in Orphans(intents, entries, entries, q)
            <==> q.Names(id, "") && HasEntry(entries, id) && forall i :: i in intents ==> i.id != id
  {
    if e :| e in entries && NamedBy(e, id) {
      forall f | f in entries && f.id == e.id
        ensures f == e
      {
        var j :| 0 <= j < |entries| && entries[j] == e;
        var k :| 0 <= k < |entries| && entries[k] == f;
        assert j == k;
      }
    }
  }

  // ---------------------------------------------------------------- when matching throws

  /** The intent has entries and its amount, or a debit in its currency, does not parse. */
  ghost predicate Unreadable(i: Intent, entries: seq<LedgerEntry>) {
    && HasEntry(entries, i.id) && i.amount.Some?
    && (Scaled(i.amount.value).Err?
        || exists e :: e in entries && DebitFor(e, i.id) && e.money.currency == i.amount.value.currency && Scaled(e.money).Err?)
  }

  lemma IntentThrows(i: Intent, entries: seq<LedgerEntry>)
    ensures IL.Verdict(i, IL.Linked(entries, i.id)).Err? <==> Unreadable(i, entries)
  {
    hide IL.Linked, ExactSum, Exact, Scaled;
    DebitsAre(entries, i.id);
    if i.amount.Some? {
      var debits, c := DebitsOf(entries, i.id), i.amount.value.currency;
      FilterMembers(debits, IL.SameCurrency(c));
      var same := Filter(debits, IL.SameCurrency(c));
      assert IL.AllParse(same) <==> forall e :: e in same ==> Scaled(e.money).Ok?;
    }
  }

  lemma {:induction false} IntentsThrow(intents: seq<Intent>, entries: seq<LedgerEntry>)
    ensures IL.Verdicts(intents, entries).Err? <==> exists i :: i in intents && Unreadable(i, entries)
  {
    hide IL.Linked, IL.Verdict, Unreadable;
    if intents != [] {
      var n := |intents| - 1;
      IntentsThrow(intents[..n], entries);
      IntentThrows(intents[n], entries);
      assert intents == intents[..n] + [intents[n]];
    }
  }
}
