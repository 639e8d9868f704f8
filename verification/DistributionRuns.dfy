/** Executing one distribution plan after another into one ledger: when entry ids of different plans meet
    (packages/treasury/src/distribution.ts). */
module DistributionRuns {
  import opened Wrappers
  import opened MoneyMath
  import opened Grouping
  import opened DistributionModel
  import opened Transfers
  import opened Distributions
  import LedgerModel

  /** All that execution asks for besides free entry ids. */
  predicate Ready(u: Unit, p: Plan) {
    p.status == Approved && Resolves(u, p) && AllPositive(Writable(u, p))
  }

  /** The ledger's entries after executing plans in turn; a refused plan writes nothing. */
  function EntriesAfter(u: Unit, plans: seq<Plan>, entries: seq<LedgerModel.Entry>, now: string): seq<LedgerModel.Entry> {
    if plans == [] then entries
    else
      var p, before := plans[|plans| - 1], EntriesAfter(u, plans[..|plans| - 1], entries, now);
      if Executable(u, p, before) then before + EntriesOf(PlanTransfers(u, p), Correlation(p), now) else before
  }

  /** No plan that is ready is refused because an id is taken. */
  ghost predicate IdsAlwaysFree(u: Unit, plans: seq<Plan>, entries: seq<LedgerModel.Entry>, now: string) {
    forall k :: 0 <= k < |plans| && Ready(u, plans[k]) ==> Executable(u, plans[k], EntriesAfter(u, plans[..k], entries, now))
  }

  /** Plans of one engine: admitted, and each id once. */
  ghost predicate PlansOf(u: Unit, plans: seq<Plan>, ids: set<string>) {
    && (forall k :: 0 <= k < |plans| ==> plans[k].id in ids && Admitted(u, plans[k]))
    && (forall j, k :: 0 <= j < k < |plans| ==> plans[j].id != plans[k].id)
  }

  const Tag := "distribution:"

  /** Nothing in the ledger looks like a distribution's entry. */
  ghost predicate Foreign(entries: seq<LedgerModel.Entry>) {
    forall i :: 0 <= i < |entries| ==> !(Tag <= entries[i].id)
  }

  /** No plan id continues another one after a colon. */
  ghost predicate NoContinuation(ids: set<string>) {
    forall p, q :: p in ids && q in ids ==> !(p + ":" <= q)
  }

  function KeyFor(planId: string, payeeId: string): string {
    Tag + planId + ":" + payeeId
  }

  lemma TransferKey(p: Plan, payout: Payout)
    ensures TransferOf(p, payout).key == KeyFor(p.id, payout.payeeId)
  {
  }

  // ---------------------------------------------------------------- keys that meet

  lemma KeysMeet(p: string, x: string, q: string, y: string)
    requires KeyFor(p, x) == KeyFor(q, y) && p != q
    ensures p + ":" <= q || q + ":" <= p
  {
    var s, t := p + ":" + x, q + ":" + y;
    assert KeyFor(p, x) == Tag + s && KeyFor(q, y) == Tag + t;
    PrefixInjective(Tag, s, t);
    if |p| < |q| {
      assert s[..|p| + 1] == p + ":" && t[..|p| + 1] == q[..|p| + 1];
    } else if |q| < |p| {
      assert t[..|q| + 1] == q + ":" && s[..|q| + 1] == p[..|q| + 1];
    } else {
      SameStart(p, x, q, y);
    }
  }

  lemma SameStart(p: string, x: string, q: string, y: string)
    requires p + ":" + x == q + ":" + y && |p| == |q|
    ensures p == q
  {
    assert (p + ":" + x)[..|p|] == p && (q + ":" + y)[..|q|] == q;
  }

  lemma ContinuationHasColon(p: string, q: string)
    requires p + ":" <= q
    ensures ':' in q
  {
    assert q[|p|] == ':';
  }

  /** Colon-free plan ids are always apart, whatever the payees are called. */
  lemma NoColonNoContinuation(ids: set<string>)
    requires forall p :: p in ids ==> ':' !in p
    ensures NoContinuation(ids)
  {
    forall p, q | p in ids && q in ids
      ensures !(p + ":" <= q)
    {
      if p + ":" <= q {
        ContinuationHasColon(p, q);
      }
    }
  }

  // ---------------------------------------------------------------- plans that never meet

  predicate IdOf(id: string, key: string) {
    id == key + ":debit" || id == key + ":credit"
  }

  ghost predicate WrittenFor(id: string, plans: seq<Plan>) {
    exists k, payee :: 0 <= k < |plans| && IdOf(id, KeyFor(plans[k].id, payee))
  }

  /** Every entry was there before or was written for one of the plans. */
  ghost predicate Owned(entries: seq<LedgerModel.Entry>, plans: seq<Plan>) {
    forall i :: 0 <= i < |entries| ==> !(Tag <= entries[i].id) || WrittenFor(entries[i].id, plans)
  }

  lemma PlanEntriesOwned(u: Unit, plans: seq<Plan>, now: string, i: nat)
    requires plans != [] && PoolFits(u, plans[|plans| - 1].pool)
    requires var p := plans[|plans| - 1]; i < |EntriesOf(PlanTransfers(u, p), Correlation(p), now)|
    ensures var p := plans[|plans| - 1]; WrittenFor(EntriesOf(PlanTransfers(u, p), Correlation(p), now)[i].id, plans)
  {
    hide Writable;
    var p := plans[|plans| - 1];
    EntryIdAt(PlanTransfers(u, p), Correlation(p), now, i);
    TransferKey(p, Writable(u, p)[i / 2]);
    assert IdOf(EntriesOf(PlanTransfers(u, p), Correlation(p), now)[i].id, KeyFor(p.id, Writable(u, p)[i / 2].payeeId));
  }

  lemma WrittenForMore(id: string, plans: seq<Plan>, more: seq<Plan>)
    requires WrittenFor(id, plans) && plans <= more
    ensures WrittenFor(id, more)
  {
  }

  lemma {:induction false} RunOwned(u: Unit, plans: seq<Plan>, entries: seq<LedgerModel.Entry>, now: string)
    requires Foreign(entries)
    ensures Owned(EntriesAfter(u, plans, entries, now), plans)
  {
    hide WrittenFor, PlanTransfers, EntriesOf, Executable;
    if plans != [] {
      var n := |plans| - 1;
      var before, after := EntriesAfter(u, plans[..n], entries, now), EntriesAfter(u, plans, entries, now);
      RunOwned(u, plans[..n], entries, now);
      forall i | 0 <= i < |after| && Tag <= after[i].id
        ensures WrittenFor(after[i].id, plans)
      {
        if i < |before| {
          WrittenForMore(after[i].id, plans[..n], plans);
        } else {
          ExecutableFits(u, plans[n], before);
          PlanEntriesOwned(u, plans, now, i - |before|);
        }
      }
    }
  }

  lemma ExecutableFits(u: Unit, p: Plan, entries: seq<LedgerModel.Entry>)
    requires Executable(u, p, entries)
    ensures PoolFits(u, p.pool)
  {
  }

  lemma FreshPlanFree(u: Unit, p: Plan, plans: seq<Plan>, entries: seq<LedgerModel.Entry>, ids: set<string>)
    requires PoolFits(u, p.pool) && Owned(entries, plans) && NoContinuation(ids) && p.id in ids
    requires forall k :: 0 <= k < |plans| ==> plans[k].id in ids && plans[k].id != p.id
    ensures !IdsTaken(entries, PlanTransfers(u, p))
  {
    hide Writable, KeyFor;
    var ts := PlanTransfers(u, p);
    forall i, k | 0 <= i < |entries| && 0 <= k < |ts|
      ensures !IdOf(entries[i].id, ts[k].key)
    {
      var x := Writable(u, p)[k].payeeId;
      TransferKey(p, Writable(u, p)[k]);
      if IdOf(entries[i].id, KeyFor(p.id, x)) {
        KeyTagged(p.id, x, entries[i].id);
        var j, y :| 0 <= j < |plans| && IdOf(entries[i].id, KeyFor(plans[j].id, y));
        IdsSeparate(KeyFor(p.id, x), KeyFor(plans[j].id, y));
        IdsSeparate(KeyFor(plans[j].id, y), KeyFor(p.id, x));
        KeysMeet(p.id, x, plans[j].id, y);
      }
    }
  }

  lemma KeyTagged(planId: string, payeeId: string, id: string)
    requires IdOf(id, KeyFor(planId, payeeId))
    ensures Tag <= id
  {
    assert id == Tag + (planId + ":" + payeeId + ":debit") || id == Tag + (planId + ":" + payeeId + ":credit");
  }

  lemma FreeWhenApart(u: Unit, plans: seq<Plan>, ids: set<string>, entries: seq<LedgerModel.Entry>, now: string)
    requires NoContinuation(ids) && PlansOf(u, plans, ids) && Foreign(entries)
    ensures IdsAlwaysFree(u, plans, entries, now)
  {
    hide EntriesAfter, PlanTransfers, Admitted, Writable, AllPositive, IdsTaken, NoContinuation, Foreign, Owned;
    forall k | 0 <= k < |plans| && Ready(u, plans[k])
      ensures Executable(u, plans[k], EntriesAfter(u, plans[..k], entries, now))
    {
      RunOwned(u, plans[..k], entries, now);
      FreshPlanFree(u, plans[k], plans[..k], EntriesAfter(u, plans[..k], entries, now), ids);
    }
  }

  /** An engine whose currency validateMoney refuses writes nothing at all. */
  lemma FreeWhenBlank(u: Unit, plans: seq<Plan>, entries: seq<LedgerModel.Entry>, now: string)
    requires Trim(u.currency) == ""
    ensures IdsAlwaysFree(u, plans, entries, now)
  {
    hide EntriesAfter, Trim;
    forall k | 0 <= k < |plans| && Ready(u, plans[k])
      ensures Executable(u, plans[k], EntriesAfter(u, plans[..k], entries, now))
    {
      BlankWritesNothing(u, plans[k]);
      NoTransfers(EntriesAfter(u, plans[..k], entries, now), "", "");
    }
  }

  lemma BlankWritesNothing(u: Unit, p: Plan)
    requires Trim(u.currency) == "" && PoolFits(u, p.pool) && AllPositive(Writable(u, p))
    ensures PlanTransfers(u, p) == []
  {
    hide Trim, FormatAmount, ParseAmount, ResolutionOf;
    if Writable(u, p) != [] {
      PaidInCurrency(u, p);
    }
  }

  lemma PaidInCurrency(u: Unit, p: Plan)
    requires PoolFits(u, p.pool) && Writable(u, p) != []
    ensures Writable(u, p)[0].amount.currency == u.currency
  {
    hide FormatAmount, ParseAmount, Due, Divisor, Paid;
    var payouts := ResolutionOf(u, p).payouts;
    FilterMembers(payouts, NotZero);
    assert Writable(u, p)[0] in payouts;
  }

  // ---------------------------------------------------------------- plans that meet

  /** A plan that pays one payee one smallest unit. */
  function OnePayee(u: Unit, id: string, payeeId: string): Plan {
    Plan(id, "", Fixed, InUnits(u, 1), [Recipient(payeeId, Absent, Some(InUnits(u, 1)), false)], Approved)
  }

  lemma OnePayeeDue(u: Unit, id: string, payeeId: string)
    requires Trim(u.currency) != ""
    ensures var p := OnePayee(u, id, payeeId); Admitted(u, p) && Resolves(u, p)
    ensures ResolutionOf(u, OnePayee(u, id, payeeId)).payouts == [Payout(payeeId, InUnits(u, 1))]
    ensures ValidateMoney(InUnits(u, 1)).Ok? && Scaled(InUnits(u, 1)) == Ok(1)
  {
    hide FormatAmount, ParseParts, Cut;
    var p := OnePayee(u, id, payeeId);
    UnitsRead(u, 1);
    assert Paid(p) == p.recipients;
    assert p.recipients[..0] == [];
    assert SumDue(u, Fixed, 0, 0, p.recipients) == 1;
  }

  lemma OnePayeeReady(u: Unit, id: string, payeeId: string)
    requires Trim(u.currency) != ""
    ensures var p := OnePayee(u, id, payeeId); Admitted(u, p) && Ready(u, p) && Writable(u, p) == [Payout(payeeId, InUnits(u, 1))]
  {
    hide Trim, FormatAmount, ParseAmount, ResolutionOf, Admitted;
    OnePayeeDue(u, id, payeeId);
    FilterAll([Payout(payeeId, InUnits(u, 1))], NotZero);
  }

  /** Two plans whose first ids meet: executing the first makes the second impossible. */
  lemma SecondRefused(u: Unit, p: string, q: string, now: string) returns (plans: seq<Plan>)
    requires Trim(u.currency) != "" && p + ":" <= q
    ensures PlansOf(u, plans, {p, q}) && !IdsAlwaysFree(u, plans, [], now)
  {
    hide Trim, Admitted, FixedParse, Writable, PlanTransfers, AllPositive, EntriesOf;
    var rest := q[|p| + 1..];
    var first, second := OnePayee(u, p, rest + ":"), OnePayee(u, q, "");
    plans := [first, second];
    OnePayeeReady(u, p, rest + ":");
    OnePayeeReady(u, q, "");
    assert q == p + ":" + rest;
    assert KeyFor(p, rest + ":") == KeyFor(q, "");
    assert plans[..1] == [first] && plans[..1][..0] == [];
    FirstWrites(u, first, rest + ":", now);
    TakenBy(u, first, second, rest + ":", "", now);
    assert !Executable(u, second, EntriesAfter(u, plans[..1], [], now));
  }

  lemma FirstWrites(u: Unit, p: Plan, payeeId: string, now: string)
    requires Ready(u, p)
    ensures EntriesAfter(u, [p], [], now) == EntriesOf(PlanTransfers(u, p), Correlation(p), now)
  {
    hide Writable, AllPositive, EntriesOf, PlanTransfers, FixedParse;
    assert [p][..0] == [];
    assert EntriesAfter(u, [], [], now) == [];
    assert !IdsTaken([], PlanTransfers(u, p));
  }

  lemma TakenBy(u: Unit, p: Plan, q: Plan, x: string, y: string, now: string)
    requires PoolFits(u, p.pool) && PoolFits(u, q.pool) && KeyFor(p.id, x) == KeyFor(q.id, y)
    requires Writable(u, p) == [Payout(x, InUnits(u, 1))] && Writable(u, q) == [Payout(y, InUnits(u, 1))]
    ensures IdsTaken(EntriesOf(PlanTransfers(u, p), Correlation(p), now), PlanTransfers(u, q))
  {
    hide Writable, KeyFor;
    var ts := PlanTransfers(u, p);
    TransferKey(p, Payout(x, InUnits(u, 1)));
    TransferKey(q, Payout(y, InUnits(u, 1)));
    EntryAt(ts, Correlation(p), now, 0);
    var es := EntriesOf(ts, Correlation(p), now);
    assert es[0].id == PlanTransfers(u, q)[0].key + ":debit";
  }

  /** Plans with ids from a set never refuse each other's entry ids, whatever their payees are called, if and
      only if no id of the set continues another after a colon (or the engine cannot pay at all). */
  lemma IdsAlwaysFreeExactly(u: Unit, ids: set<string>, now: string)
    ensures (forall plans, entries :: PlansOf(u, plans, ids) && Foreign(entries) ==> IdsAlwaysFree(u, plans, entries, now))
       <==> NoContinuation(ids) || Trim(u.currency) == ""
  {
    hide Trim, IdsAlwaysFree, Admitted;
    if NoContinuation(ids) || Trim(u.currency) == "" {
      forall plans, entries | PlansOf(u, plans, ids) && Foreign(entries)
        ensures IdsAlwaysFree(u, plans, entries, now)
      {
        if NoContinuation(ids) {
          FreeWhenApart(u, plans, ids, entries, now);
        } else {
          FreeWhenBlank(u, plans, entries, now);
        }
      }
    } else {
      var p, q :| p in ids && q in ids && p + ":" <= q;
      var plans := SecondRefused(u, p, q, now);
      assert PlansOf(u, plans, ids) && Foreign([]);
    }
  }
}
