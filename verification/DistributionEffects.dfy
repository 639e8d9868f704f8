/** What a distribution plan pays and what executing it does to the ledger's totals
    (packages/treasury/src/distribution.ts). */
module DistributionEffects {
  import opened Wrappers
  import opened Decimal
  import opened MoneyMath
  import opened Grouping
  import opened DistributionModel
  import opened Transfers
  import opened Distributions
  import LedgerModel

  // ---------------------------------------------------------------- what may be planned

  predicate WholeShare(r: Recipient, max: int) {
    r.share.Whole? && 0 <= r.share.value <= max
  }

  /** A fixed amount: a valid amount that is not negative, or else a share that a number holds exactly. */
  predicate FixedShare(r: Recipient) {
    if r.amount.Some? then ValidateMoney(r.amount.value).Ok? && Scaled(r.amount.value).Ok? && Scaled(r.amount.value).value >= 0
    else WholeShare(r, 9007199254740991)
  }

  /** A plan is admitted exactly if it has recipients with distinct payees and whole shares in range: basis points,
      for a proportional plan at most 10000 in all; or fixed amounts that the pool covers. */
  lemma AdmittedExactly(u: Unit, p: Plan)
    ensures Admitted(u, p) <==>
              && p.recipients != []
              && (forall j, k :: 0 <= j < k < |p.recipients| ==> p.recipients[j].payeeId != p.recipients[k].payeeId)
              && (p.strategy != Fixed ==> forall k :: 0 <= k < |p.recipients| ==> WholeShare(p.recipients[k], 10000))
              && (p.strategy == Proportional ==> TotalShares(p.recipients) <= 10000)
              && (p.strategy == Fixed ==>
                    && (forall k :: 0 <= k < |p.recipients| ==> FixedShare(p.recipients[k]) && FixedAmount(u, p.recipients[k]).Ok?)
                    && p.pool.currency == u.currency && p.pool.decimals == u.decimals && Scaled(p.pool).Ok?
                    && SumDue(u, Fixed, 0, 0, p.recipients) <= Scaled(p.pool).value)
  {
    hide Scaled, TotalShares, SumDue, FixedAmount, ValidateMoney;
    SharesJudged(p);
  }

  /** Why a plan is refused: no recipients, then a payee named twice, then a share out of range, then the total. */
  lemma RefusalsExactly(u: Unit, p: Plan)
    ensures var why := Objection(u, p.strategy, p.pool, p.recipients);
            var good := forall k :: 0 <= k < |p.recipients| ==> GoodShare(p.strategy, p.recipients[k]);
            && (why == Some(NoRecipients) <==> p.recipients == [])
            && (why == Some(DuplicateRecipient) <==> p.recipients != [] && !DistinctPayees(p.recipients))
            && (why == Some(InvalidShares) <==>
                  && p.recipients != [] && DistinctPayees(p.recipients)
                  && (!good || (p.strategy == Proportional && TotalShares(p.recipients) > 10000)))
            && (why == Some(PoolExceeded) <==>
                  && p.recipients != [] && DistinctPayees(p.recipients) && good && p.strategy == Fixed && FixedParse(u, p.recipients)
                  && PoolFits(u, p.pool) && Scaled(p.pool).value < SumDue(u, Fixed, 0, 0, p.recipients))
  {
    hide Scaled, TotalShares, SumDue, FixedAmount, ValidateMoney, GoodShare, BadShare;
    SharesJudged(p);
  }

  predicate GoodShare(strategy: Strategy, r: Recipient) {
    if strategy == Fixed then FixedShare(r) else WholeShare(r, 10000)
  }

  lemma SharesJudged(p: Plan)
    ensures forall k :: 0 <= k < |p.recipients| ==> (BadShare(p.strategy, p.recipients[k]) <==> !GoodShare(p.strategy, p.recipients[k]))
  {
    forall k | 0 <= k < |p.recipients|
      ensures BadShare(p.strategy, p.recipients[k]) <==> !GoodShare(p.strategy, p.recipients[k])
    {
      if p.recipients[k].amount.Some? {
        ValidScales(p.recipients[k].amount.value);
      }
    }
  }

  // ---------------------------------------------------------------- who is paid, and what

  /** A milestone plan pays the recipients whose milestone is met, the others pay all. */
  predicate IsPaid(p: Plan, r: Recipient) {
    r in p.recipients && (p.strategy == Milestone ==> r.milestoneMet)
  }

  /** A payee is among the payouts exactly if it is a recipient that is paid; with distinct payees once. */
  lemma PaidExactly(u: Unit, p: Plan, payeeId: string)
    requires PoolFits(u, p.pool)
    ensures (exists k :: 0 <= k < |ResolutionOf(u, p).payouts| && ResolutionOf(u, p).payouts[k].payeeId == payeeId)
            <==> exists r :: IsPaid(p, r) && r.payeeId == payeeId
    ensures DistinctPayees(p.recipients) ==> DistinctPayoutPayees(ResolutionOf(u, p).payouts)
  {
    hide Scaled, DueOf, Filter;
    FilterMembers(p.recipients, MetMilestone);
    var paid, payouts := Paid(p), ResolutionOf(u, p).payouts;
    assert forall r :: r in paid <==> IsPaid(p, r);
    assert forall k :: 0 <= k < |paid| ==> payouts[k].payeeId == paid[k].payeeId;
    if r :| IsPaid(p, r) && r.payeeId == payeeId {
      var k :| 0 <= k < |paid| && paid[k] == r;
      assert payouts[k].payeeId == payeeId;
    }
    if k :| 0 <= k < |payouts| && payouts[k].payeeId == payeeId {
      assert paid[k] in paid;
    }
    if DistinctPayees(p.recipients) {
      PaidDistinct(p.recipients);
    }
  }

  /** The shares of the recipients whose milestone is met, together. */
  function MetShares(rs: seq<Recipient>): int {
    if rs == [] then 0
    else
      var r := rs[|rs| - 1];
      MetShares(rs[..|rs| - 1]) + if r.milestoneMet && r.share.Whole? then r.share.value else 0
  }

  lemma {:induction false} MetSharesAre(rs: seq<Recipient>)
    ensures TotalShares(Filter(rs, MetMilestone)) == MetShares(rs)
  {
    if rs != [] {
      var n := |rs| - 1;
      MetSharesAre(rs[..n]);
      var init := Filter(rs[..n], MetMilestone);
      assert (init + [rs[n]])[..|init|] == init;
      assert init + [] == init;
    }
  }

  /** q is a / b without its fraction. */
  predicate Truncates(q: int, a: int, b: int) {
    && b > 0
    && (a >= 0 ==> q * b <= a < (q + 1) * b)
    && (a < 0 ==> (q - 1) * b < a <= q * b)
  }

  lemma TruncDivTruncates(a: int, b: int)
    requires b > 0
    ensures Truncates(TruncDiv(a, b), a, b)
  {
    if a >= 0 {
      Floor(a, b);
    } else {
      Floor(-a, b);
      Negate(-a / b, b);
    }
  }

  lemma Floor(a: int, b: int)
    requires b > 0 && a >= 0
    ensures a / b * b <= a < (a / b + 1) * b
  {
    assert a == a / b * b + a % b;
    assert (a / b + 1) * b == a / b * b + b;
  }

  lemma Negate(q: int, b: int)
    ensures -q * b == -(q * b) && (-q - 1) * b == -((q + 1) * b)
  {
  }

  /** What a recipient is due: its basis points of the pool, its part of the met shares' pool, or its fixed amount;
      fractions of a unit are cut off toward zero. */
  lemma DuesExactly(u: Unit, p: Plan, r: Recipient)
    requires Scaled(p.pool).Ok? && r.share.Whole?
    ensures var pool, due := Scaled(p.pool).value, DueOf(u, p, r);
            && (p.strategy == Proportional ==> Truncates(due, pool * r.share.value, 10000))
            && (p.strategy == Milestone ==>
                  if MetShares(p.recipients) > 0 then Truncates(due, pool * r.share.value, MetShares(p.recipients)) else due == 0)
            && (p.strategy == Fixed && r.amount.Some? && ParseAmount(r.amount.value.amount, u.decimals).Ok? ==>
                  due == ParseAmount(r.amount.value.amount, u.decimals).value)
            && (p.strategy == Fixed && r.amount == None && r.share.value >= 0 ==> due == r.share.value * Pow10(u.decimals))
  {
    hide Truncates, TruncDiv, Scaled, MetShares, TotalShares, Filter, ParseAmount;
    var pool := Scaled(p.pool).value;
    MetSharesAre(p.recipients);
    if p.strategy != Fixed && Divisor(p) > 0 {
      TruncDivTruncates(pool * r.share.value, Divisor(p));
    }
    if p.strategy == Fixed && r.amount == None && r.share.value >= 0 {
      WholeUnits(r.share.value, u.decimals);
    }
  }

  /** A number without a point counts whole units. */
  lemma WholeUnits(n: nat, d: nat)
    ensures ParseAmount(Show(n), d) == Ok(n * Pow10(d))
  {
    hide ParseAmount, Pow10;
    ParseFormat(n, 0);
    ParseRescale(Show(n), 0, d);
  }

  // ---------------------------------------------------------------- what executing a plan does to the totals

  function PayoutsFor(u: Unit, p: Plan, rs: seq<Recipient>): seq<Payout>
    requires Scaled(p.pool).Ok?
  {
    seq(|rs|, k requires 0 <= k < |rs| => PayoutOf(u, p, rs[k]))
  }

  /** What the recipients of a list whose account this is are due, together. */
  function DueTo(u: Unit, p: Plan, rs: seq<Recipient>, account: string): int
    requires Scaled(p.pool).Ok?
  {
    if rs == [] then 0
    else
      var r := rs[|rs| - 1];
      DueTo(u, p, rs[..|rs| - 1], account) + if account == "distribution:recipient:" + r.payeeId then DueOf(u, p, r) else 0
  }

  lemma TransfersSnoc(p: Plan, payouts: seq<Payout>, payout: Payout)
    ensures TransfersOf(p, payouts + [payout]) == TransfersOf(p, payouts) + [TransferOf(p, payout)]
  {
  }

  function InAccount(account: string, c: string): LedgerModel.Query {
    LedgerModel.Query(Some(account), Some(c), None)
  }

  lemma MovedSnoc(ts: seq<Transfer>, t: Transfer, q: LedgerModel.Query, side: LedgerModel.Side)
    ensures Moved(ts + [t], q, side) == Moved(ts, q, side) + Moved([t], q, side)
  {
    assert (ts + [t])[..|ts|] == ts && [t][..0] == [];
  }

  /** A single payout. */
  lemma OnePayout(u: Unit, p: Plan, r: Recipient, account: string, c: string)
    requires Scaled(p.pool).Ok?
    ensures var t := TransferOf(p, PayoutOf(u, p, r));
            && Moved([t], InAccount(account, c), LedgerModel.Debit)
               == (if account == "distribution:pool:" + p.id && c == u.currency then DueOf(u, p, r) else 0)
            && Moved([t], InAccount(account, c), LedgerModel.Credit)
               == (if account == "distribution:recipient:" + r.payeeId && c == u.currency then DueOf(u, p, r) else 0)
    ensures NotZero(PayoutOf(u, p, r)) <==> DueOf(u, p, r) != 0
  {
    hide Scaled, DueOf, FormatAmount;
    UnitsRead(u, DueOf(u, p, r));
    assert [TransferOf(p, PayoutOf(u, p, r))][..0] == [];
  }

  lemma {:induction false} PayoutsMove(u: Unit, p: Plan, rs: seq<Recipient>, account: string, c: string)
    requires Scaled(p.pool).Ok?
    ensures var ts := TransfersOf(p, Filter(PayoutsFor(u, p, rs), NotZero));
            && Moved(ts, InAccount(account, c), LedgerModel.Debit)
               == (if account == "distribution:pool:" + p.id && c == u.currency
                   then SumDue(u, p.strategy, Scaled(p.pool).value, Divisor(p), rs) else 0)
            && Moved(ts, InAccount(account, c), LedgerModel.Credit) == (if c == u.currency then DueTo(u, p, rs, account) else 0)
  {
    hide Scaled, Due, NotZero, TransferOf, PayoutOf, Moved, Divisor;
    if rs == [] {
      NothingMoves(p, InAccount(account, c));
    } else {
      var n := |rs| - 1;
      var q, r := InAccount(account, c), rs[n];
      var before, payout := PayoutsFor(u, p, rs[..n]), PayoutOf(u, p, r);
      PayoutsMove(u, p, rs[..n], account, c);
      assert PayoutsFor(u, p, rs) == before + [payout];
      FilterSnoc(before, payout, NotZero);
      TransfersSnoc(p, Filter(before, NotZero), payout);
      MovedSnoc(TransfersOf(p, Filter(before, NotZero)), TransferOf(p, payout), q, LedgerModel.Debit);
      MovedSnoc(TransfersOf(p, Filter(before, NotZero)), TransferOf(p, payout), q, LedgerModel.Credit);
      OnePayout(u, p, r, account, c);
      assert Filter(before, NotZero) + [] == Filter(before, NotZero);
    }
  }

  lemma NothingMoves(p: Plan, q: LedgerModel.Query)
    ensures Moved(TransfersOf(p, Filter([], NotZero)), q, LedgerModel.Debit) == Moved(TransfersOf(p, Filter([], NotZero)), q, LedgerModel.Credit) == 0
  {
  }

  /** Executing a plan debits the plan's pool account with all that is distributed and credits each paid
      recipient's account with what it is due, in the engine's currency; no other total changes. */
  lemma ExecutionMovesPool(u: Unit, p: Plan, entries: seq<LedgerModel.Entry>, now: string, account: string, c: string)
    requires Resolves(u, p)
    ensures var after := entries + EntriesOf(PlanTransfers(u, p), Correlation(p), now);
            && LedgerModel.Sum(after, InAccount(account, c), LedgerModel.Debit) - LedgerModel.Sum(entries, InAccount(account, c), LedgerModel.Debit)
               == (if account == "distribution:pool:" + p.id && c == u.currency then Distributed(u, p) else 0)
            && LedgerModel.Sum(after, InAccount(account, c), LedgerModel.Credit) - LedgerModel.Sum(entries, InAccount(account, c), LedgerModel.Credit)
               == (if c == u.currency then DueTo(u, p, Paid(p), account) else 0)
  {
    hide Scaled, Due, NotZero, TransferOf, PayoutOf, Moved, Divisor, LedgerModel.Sum, EntriesOf, Paid, FixedParse;
    assert ResolutionOf(u, p).payouts == PayoutsFor(u, p, Paid(p));
    PayoutsMove(u, p, Paid(p), account, c);
    TransfersMove(PlanTransfers(u, p), entries, Correlation(p), now, InAccount(account, c), LedgerModel.Debit);
    TransfersMove(PlanTransfers(u, p), entries, Correlation(p), now, InAccount(account, c), LedgerModel.Credit);
  }

  /** With distinct payees, each one's account is credited with its own due. */
  lemma {:induction false} DueToPayee(u: Unit, p: Plan, rs: seq<Recipient>, payeeId: string)
    requires Scaled(p.pool).Ok? && DistinctPayees(rs)
    ensures forall k :: 0 <= k < |rs| && rs[k].payeeId == payeeId ==> DueTo(u, p, rs, "distribution:recipient:" + payeeId) == DueOf(u, p, rs[k])
    ensures (forall k :: 0 <= k < |rs| ==> rs[k].payeeId != payeeId) ==> DueTo(u, p, rs, "distribution:recipient:" + payeeId) == 0
  {
    hide DueOf;
    if rs != [] {
      var n := |rs| - 1;
      DueToPayee(u, p, rs[..n], payeeId);
      PrefixInjective("distribution:recipient:", payeeId, rs[n].payeeId);
      assert forall k :: 0 <= k < n ==> rs[..n][k] == rs[k];
    }
  }
}
