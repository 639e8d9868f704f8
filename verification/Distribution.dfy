/** The distribution engine as an object: plan checks, the three resolvers on decimal strings, and execution
    against the ledger (packages/treasury/src/distribution.ts). */
module Distributions {
  import opened Wrappers
  import opened MoneyMath
  import opened Grouping
  import opened DistributionModel
  import opened Transfers
  import LedgerModel
  import Ledgers

  datatype Payout = Payout(payeeId: string, amount: Money)

  datatype Resolution = Resolution(planId: string, payouts: seq<Payout>, totalDistributed: Money, remainder: Money)

  function InUnits(u: Unit, n: int): Money {
    Money(FormatAmount(n, u.decimals), u.currency, u.decimals)
  }

  function PayoutOf(u: Unit, p: Plan, r: Recipient): Payout
    requires Scaled(p.pool).Ok?
  {
    Payout(r.payeeId, InUnits(u, DueOf(u, p, r)))
  }

  /** What resolving a plan gives: each paid recipient's due, their sum, and the rest of the pool. */
  function ResolutionOf(u: Unit, p: Plan): Resolution
    requires PoolFits(u, p.pool)
  {
    var payouts := seq(|Paid(p)|, k requires 0 <= k < |Paid(p)| => PayoutOf(u, p, Paid(p)[k]));
    Resolution(p.id, payouts, InUnits(u, Distributed(u, p)), InUnits(u, Remainder(u, p)))
  }

  lemma UnitsRead(u: Unit, n: int)
    ensures Scaled(InUnits(u, n)) == Ok(n)
  {
    ParseFormat(n, u.decimals);
  }

  lemma AddInUnits(u: Unit, a: int, b: int)
    ensures AddMoney(InUnits(u, a), InUnits(u, b)) == Ok(InUnits(u, a + b))
  {
    hide ParseAmount, FormatAmount;
    UnitsRead(u, a);
    UnitsRead(u, b);
  }

  lemma SubtractInUnits(u: Unit, pool: Money, n: int)
    ensures SubtractMoney(pool, InUnits(u, n))
         == if !(pool.currency == u.currency && pool.decimals == u.decimals) then Err(CurrencyMismatch)
            else if Scaled(pool).Err? then Err(Scaled(pool).error)
            else Ok(InUnits(u, Scaled(pool).value - n))
  {
    hide ParseAmount, FormatAmount;
    UnitsRead(u, n);
  }

  /** The payouts' amounts, summed as the ledger reads them. */
  function SumOf(payouts: seq<Payout>): int {
    if payouts == [] then 0
    else SumOf(payouts[..|payouts| - 1]) + if Scaled(payouts[|payouts| - 1].amount).Ok? then Scaled(payouts[|payouts| - 1].amount).value else 0
  }

  lemma {:induction false} PayoutsSum(u: Unit, p: Plan, rs: seq<Recipient>, payouts: seq<Payout>)
    requires Scaled(p.pool).Ok? && |payouts| == |rs| && forall k :: 0 <= k < |rs| ==> payouts[k] == PayoutOf(u, p, rs[k])
    ensures SumOf(payouts) == SumDue(u, p.strategy, Scaled(p.pool).value, Divisor(p), rs)
  {
    hide Scaled, Due, Divisor;
    if rs != [] {
      var n := |rs| - 1;
      PayoutsSum(u, p, rs[..n], payouts[..n]);
      UnitsRead(u, DueOf(u, p, rs[n]));
    }
  }

  /** Nothing is created or lost: the payouts and the remainder, as read back from their texts, make up the
      pool exactly; and for an admitted plan with a non-negative pool the remainder is not negative and, when
      the whole pool is meant to be handed out, smaller than one unit per recipient paid. */
  lemma PoolIsConserved(u: Unit, p: Plan)
    requires Resolves(u, p)
    ensures var r := ResolutionOf(u, p);
            && Scaled(r.remainder).Ok? && SumOf(r.payouts) + Scaled(r.remainder).value == Scaled(p.pool).value
            && Scaled(r.totalDistributed) == Ok(SumOf(r.payouts))
            && (Admitted(u, p) && Scaled(p.pool).value >= 0 ==> Scaled(r.remainder).value >= 0)
            && (Admitted(u, p) && Scaled(p.pool).value >= 0 && HandsOutAll(p) ==> Scaled(r.remainder).value < |r.payouts|)
  {
    hide Scaled, Due, Divisor, HandsOutAll, Admitted;
    PayoutsSum(u, p, Paid(p), ResolutionOf(u, p).payouts);
    UnitsRead(u, Distributed(u, p));
    UnitsRead(u, Remainder(u, p));
    if Admitted(u, p) && Scaled(p.pool).value >= 0 {
      RemainderNonNegative(u, p);
      if HandsOutAll(p) {
        RemainderIsDust(u, p);
      }
    }
  }

  predicate IsZero(p: Payout) {
    Scaled(p.amount) == Ok(0)
  }

  predicate NotZero(p: Payout) {
    !IsZero(p)
  }

  class DistributionEngine {
    const unit: Unit
    var plans: map<string, Plan>

    /** Every plan passed createPlan's checks. */
    ghost predicate Valid()
      reads this
    {
      forall id :: id in plans ==> Admitted(unit, plans[id])
    }

    constructor (unit: Unit)
      ensures this.unit == unit && plans == map[] && Valid()
    {
      this.unit := unit;
      plans := map[];
    }

    method HasDuplicate(recipients: seq<Recipient>) returns (found: bool)
      ensures found <==> !DistinctPayees(recipients)
    {
      var seen: set<string> := {};
      for k := 0 to |recipients|
        invariant DistinctPayees(recipients[..k])
        invariant forall id :: id in seen <==> exists j :: 0 <= j < k && recipients[j].payeeId == id
      {
        if recipients[k].payeeId in seen { return true; }
        seen := seen + {recipients[k].payeeId};
      }
      found := false;
    }

    /** The sum of fixed amounts, by repeated addMoney. */
    method SumFixed(recipients: seq<Recipient>) returns (total: Result<Money, LedgerError>)
      ensures total == if FixedParse(unit, recipients) then Ok(InUnits(unit, SumDue(unit, Fixed, 0, 0, recipients))) else Err(InvalidAmount)
    {
      hide ParseAmount, FormatAmount, FixedText;
      var sum := InUnits(unit, 0);
      for k := 0 to |recipients|
        invariant FixedParse(unit, recipients[..k]) && sum == InUnits(unit, SumDue(unit, Fixed, 0, 0, recipients[..k]))
      {
        assert recipients[..k + 1][..k] == recipients[..k];
        FixedMoney(unit, SumDue(unit, Fixed, 0, 0, recipients[..k]), recipients[k]);
        var next := AddMoney(sum, Money(FixedText(recipients[k]), unit.currency, unit.decimals));
        if next.Err? { return Err(next.error); }
        sum := next.value;
      }
      assert recipients[..|recipients|] == recipients;
      total := Ok(sum);
    }

    method CreatePlan(id: string, name: string, strategy: Strategy, pool: Money, recipients: seq<Recipient>)
      returns (r: Result<Plan, DistributionError>)
      requires Valid()
      modifies this
      ensures Valid()
      ensures id in old(plans) ==> r == Err(PlanExists)
      ensures id !in old(plans) ==> match Objection(unit, strategy, pool, recipients)
                                    case Some(e) => r == Err(e)
                                    case None => r == Ok(Plan(id, name, strategy, pool, recipients, Draft))
      ensures plans == if r.Ok? then old(plans)[id := r.value] else old(plans)
    {
      hide FormatAmount, ParseAmount, BadShare;
      if id in plans { return Err(PlanExists); }
      if |recipients| == 0 { return Err(NoRecipients); }
      var duplicate := HasDuplicate(recipients);
      if duplicate { return Err(DuplicateRecipient); }
      if exists k :: 0 <= k < |recipients| && BadShare(strategy, recipients[k]) { return Err(InvalidShares); }
      if strategy == Proportional {
        if TotalShares(recipients) > BASIS_POINTS { return Err(InvalidShares); }
      }
      if strategy == Fixed {
        var total := SumFixed(recipients);
        if total.Err? { return Err(MoneyFailed(total.error)); }
        SubtractInUnits(unit, pool, SumDue(unit, Fixed, 0, 0, recipients));
        var check := SubtractMoney(pool, total.value);
        if check.Err? {
          OnlyInvalid(pool);
          return Err(MoneyFailed(check.error));
        }
        UnitsRead(unit, Scaled(pool).value - SumDue(unit, Fixed, 0, 0, recipients));
        if Scaled(check.value).value < 0 { return Err(PoolExceeded); }
      }
      var plan := Plan(id, name, strategy, pool, recipients, Draft);
      plans := plans[id := plan];
      r := Ok(plan);
    }

    method ApprovePlan(id: string) returns (r: Result<Plan, DistributionError>)
      requires Valid()
      modifies this
      ensures Valid()
      ensures r == if id !in old(plans) then Err(PlanNotFound)
                   else if old(plans)[id].status != Draft then Err(InvalidTransition)
                   else Ok(old(plans)[id].(status := Approved))
      ensures plans == if r.Ok? then old(plans)[id := r.value] else old(plans)
    {
      hide Objection;
      if id !in plans { return Err(PlanNotFound); }
      var plan := plans[id];
      if plan.status != Draft { return Err(InvalidTransition); }
      plans := plans[id := plan.(status := Approved)];
      r := Ok(plans[id]);
    }

    /** One recipient's amount as the resolver computes it. */
    method AmountFor(p: Plan, poolAmount: int, divisor: int, r: Recipient) returns (amount: Result<Money, LedgerError>)
      requires p.strategy != Fixed ==> divisor == Divisor(p)
      ensures p.strategy == Fixed ==> amount == match FixedAmount(unit, r) case Ok(v) => Ok(InUnits(unit, v)) case Err(e) => Err(e)
      ensures p.strategy != Fixed ==> amount == Ok(InUnits(unit, Due(unit, p.strategy, poolAmount, divisor, r)))
    {
      hide ParseAmount, FormatAmount, Divisor, FixedText;
      if p.strategy == Fixed {
        FixedMoney(unit, 0, r);
        amount := AddMoney(InUnits(unit, 0), Money(FixedText(r), unit.currency, unit.decimals));
      } else {
        var payoutAmount := if divisor > 0 then TruncDiv(poolAmount * ShareOf(r), divisor) else 0;
        amount := Ok(Money(FormatAmount(payoutAmount, unit.decimals), unit.currency, unit.decimals));
      }
    }

    /** resolvePayouts: the three resolvers, which differ in who is paid and by what divisor. */
    method Resolve(p: Plan) returns (r: Result<Resolution, DistributionError>)
      ensures r.Ok? <==> Resolves(unit, p)
      ensures r.Ok? ==> r.value == ResolutionOf(unit, p)
      ensures r.Err? ==> r.error.MoneyFailed?
    {
      hide ParseAmount, FormatAmount, Due, FixedAmount, Divisor, Paid;
      PaidOfFixed(p);
      if p.strategy != Fixed && Scaled(p.pool).Err? { return Err(MoneyFailed(Scaled(p.pool).error)); }
      var poolAmount := if Scaled(p.pool).Ok? then Scaled(p.pool).value else 0;
      var recipients, divisor := Paid(p), Divisor(p);
      var payouts: seq<Payout> := [];
      var total := InUnits(unit, 0);
      for k := 0 to |recipients|
        invariant |payouts| == k && forall j :: 0 <= j < k ==>
                    payouts[j] == Payout(recipients[j].payeeId, InUnits(unit, Due(unit, p.strategy, poolAmount, divisor, recipients[j])))
        invariant total == InUnits(unit, SumDue(unit, p.strategy, poolAmount, divisor, recipients[..k]))
        invariant p.strategy == Fixed ==> FixedParse(unit, recipients[..k])
      {
        var recipient := recipients[k];
        assert recipients[..k + 1][..k] == recipients[..k];
        var amount := AmountFor(p, poolAmount, divisor, recipient);
        if amount.Err? { return Err(MoneyFailed(amount.error)); }
        FixedDue(unit, poolAmount, divisor, recipient);
        AddInUnits(unit, SumDue(unit, p.strategy, poolAmount, divisor, recipients[..k]), Due(unit, p.strategy, poolAmount, divisor, recipient));
        payouts := payouts + [Payout(recipient.payeeId, amount.value)];
        total := AddMoney(total, amount.value).value;
      }
      assert recipients[..|recipients|] == recipients;
      SubtractInUnits(unit, p.pool, SumDue(unit, p.strategy, poolAmount, divisor, recipients));
      var remainder := SubtractMoney(p.pool, total);
      if remainder.Err? { return Err(MoneyFailed(remainder.error)); }
      r := Ok(Resolution(p.id, payouts, total, remainder.value));
      assert r.value.payouts == ResolutionOf(unit, p).payouts;
    }

    /** executeDistribution: one balanced batch, or nothing. */
    method Execute(id: string, ledger: Ledgers.Ledger, now: string) returns (r: Result<Resolution, DistributionError>)
      requires Valid() && ledger.Valid()
      modifies this, ledger
      ensures Valid() && ledger.Valid()
      ensures r.Ok? <==> id in old(plans) && Executable(unit, old(plans)[id], old(ledger.entries))
      ensures r.Err? ==> plans == old(plans) && ledger.entries == old(ledger.entries) && ledger.transactions == old(ledger.transactions)
      ensures r.Ok? ==> var p := old(plans)[id];
                        && plans == old(plans)[id := p.(status := Executed)]
                        && r.value == ResolutionOf(unit, p).(payouts := Writable(unit, p))
                        && ledger.entries == old(ledger.entries) + EntriesOf(PlanTransfers(unit, p), Correlation(p), now)
    {
      hide LedgerModel.WellFormed, LedgerModel.AppendError, Scaled, ValidateMoney, ResolutionOf, IdsTaken, EntriesOf, PlanTransfers, Objection;
      if id !in plans { return Err(PlanNotFound); }
      var plan := plans[id];
      if plan.status != Approved { return Err(InvalidTransition); }
      var result := Resolve(plan);
      if result.Err? { return Err(result.error); }
      var writable := Filter(result.value.payouts, NotZero);
      var checked := CheckWritable(writable);
      if checked.Err? { return Err(checked.error); }
      RegisterAccounts(ledger, plan, writable, now);
      var transfers := TransfersOf(plan, writable);
      PlanTransfersAre(unit, plan);
      if |writable| > 0 {
        PlanPostable(ledger.accounts, plan, writable);
        AdmittedDistinct(unit, plan);
        PlanKeysDistinct(unit, plan);
        TransfersAccepted(ledger.Contents(), transfers, Correlation(plan), now);
        var receipt := ledger.Append(EntriesOf(transfers, Correlation(plan), now), Some("Distribution: " + plan.name));
        if receipt.Err? { return Err(MoneyFailed(receipt.error)); }
      } else {
        NoTransfers(ledger.entries, Correlation(plan), now);
      }
      plans := plans[id := plan.(status := Executed)];
      r := Ok(result.value.(payouts := writable));
    }

    method CheckWritable(writable: seq<Payout>) returns (r: Result<(), DistributionError>)
      ensures r.Ok? <==> AllPositive(writable)
    {
      hide Scaled, ValidateMoney;
      for k := 0 to |writable|
        invariant AllPositive(writable[..k])
      {
        var valid := ValidateMoney(writable[k].amount);
        if valid.Err? { return Err(MoneyFailed(valid.error)); }
        ValidScales(writable[k].amount);
        if !(Scaled(writable[k].amount).value > 0) { return Err(InvalidShares); }
        assert writable[..k + 1] == writable[..k] + [writable[k]];
      }
      assert writable[..|writable|] == writable;
      r := Ok(());
    }

    static method RegisterAccounts(ledger: Ledgers.Ledger, plan: Plan, writable: seq<Payout>, now: string)
      requires ledger.Valid()
      modifies ledger
      ensures ledger.Valid() && ledger.entries == old(ledger.entries) && ledger.transactions == old(ledger.transactions)
      ensures LedgerModel.HasAccount(ledger.accounts, PoolAccount(plan))
      ensures forall k :: 0 <= k < |writable| ==> LedgerModel.HasAccount(ledger.accounts, RecipientAccount(writable[k].payeeId))
    {
      hide LedgerModel.WellFormed, LedgerModel.HasAccount, PoolAccount, RecipientAccount;
      EnsureAccount(ledger, LedgerModel.Account(PoolAccount(plan), LedgerModel.Asset, "Distribution Pool: " + plan.name, now));
      for k := 0 to |writable|
        invariant ledger.Valid() && ledger.entries == old(ledger.entries) && ledger.transactions == old(ledger.transactions)
        invariant LedgerModel.HasAccount(ledger.accounts, PoolAccount(plan))
        invariant forall j :: 0 <= j < k ==> LedgerModel.HasAccount(ledger.accounts, RecipientAccount(writable[j].payeeId))
      {
        var payee := writable[k].payeeId;
        EnsureAccount(ledger, LedgerModel.Account(RecipientAccount(payee), LedgerModel.Liability, "Distribution Recipient: " + payee, now));
      }
    }
  }

  // ---------------------------------------------------------------- what execution writes

  function Correlation(p: Plan): string {
    "distribution:" + p.id
  }

  function PoolAccount(p: Plan): string {
    "distribution:pool:" + p.id
  }

  function RecipientAccount(payeeId: string): string {
    "distribution:recipient:" + payeeId
  }

  function TransferOf(p: Plan, payout: Payout): Transfer {
    Transfer(Correlation(p) + ":" + payout.payeeId, PoolAccount(p), RecipientAccount(payout.payeeId), payout.amount)
  }

  function TransfersOf(p: Plan, payouts: seq<Payout>): seq<Transfer> {
    seq(|payouts|, k requires 0 <= k < |payouts| => TransferOf(p, payouts[k]))
  }

  /** The payouts that are written: all but the zero ones. */
  function Writable(u: Unit, p: Plan): seq<Payout>
    requires PoolFits(u, p.pool)
  {
    Filter(ResolutionOf(u, p).payouts, NotZero)
  }

  function PlanTransfers(u: Unit, p: Plan): seq<Transfer>
    requires PoolFits(u, p.pool)
  {
    TransfersOf(p, Writable(u, p))
  }

  predicate AllPositive(payouts: seq<Payout>) {
    forall k :: 0 <= k < |payouts| ==> ValidateMoney(payouts[k].amount).Ok? && Scaled(payouts[k].amount).Ok? && Scaled(payouts[k].amount).value > 0
  }

  /** When execution goes through: an approved plan that resolves to valid positive payouts, none of whose
      entry ids is taken in the ledger. */
  predicate Executable(u: Unit, p: Plan, entries: seq<LedgerModel.Entry>) {
    && p.status == Approved && Resolves(u, p)
    && AllPositive(Writable(u, p)) && !IdsTaken(entries, PlanTransfers(u, p))
  }

  lemma AdmittedDistinct(u: Unit, p: Plan)
    requires Admitted(u, p)
    ensures DistinctPayees(p.recipients)
  {
  }

  lemma ValidScales(m: Money)
    ensures ValidateMoney(m).Ok? ==> Scaled(m).Ok?
  {
  }

  lemma PlanTransfersAre(u: Unit, p: Plan)
    requires PoolFits(u, p.pool)
    ensures PlanTransfers(u, p) == TransfersOf(p, Writable(u, p))
  {
  }

  lemma NoTransfers(entries: seq<LedgerModel.Entry>, correlationId: string, now: string)
    ensures !IdsTaken(entries, []) && EntriesOf([], correlationId, now) == []
  {
  }

  lemma PlanPostable(accounts: seq<LedgerModel.Account>, p: Plan, payouts: seq<Payout>)
    requires AllPositive(payouts) && LedgerModel.HasAccount(accounts, PoolAccount(p))
    requires forall k :: 0 <= k < |payouts| ==> LedgerModel.HasAccount(accounts, RecipientAccount(payouts[k].payeeId))
    ensures forall k :: 0 <= k < |payouts| ==> Postable(accounts, TransfersOf(p, payouts)[k])
  {
    hide Scaled, ValidateMoney, PoolAccount, RecipientAccount;
  }

  predicate DistinctPayoutPayees(payouts: seq<Payout>) {
    forall j, k :: 0 <= j < k < |payouts| ==> payouts[j].payeeId != payouts[k].payeeId
  }

  lemma {:induction false} FilterKeepsDistinct(payouts: seq<Payout>)
    requires DistinctPayoutPayees(payouts)
    ensures DistinctPayoutPayees(Filter(payouts, NotZero))
  {
    hide Scaled;
    if payouts != [] {
      var n := |payouts| - 1;
      FilterKeepsDistinct(payouts[..n]);
      FilterMembers(payouts[..n], NotZero);
      var init := Filter(payouts[..n], NotZero);
      forall j | 0 <= j < |init|
        ensures init[j].payeeId != payouts[n].payeeId
      {
        assert init[j] in payouts[..n];
      }
    }
  }

  lemma {:induction false} PaidDistinct(rs: seq<Recipient>)
    requires DistinctPayees(rs)
    ensures DistinctPayees(Filter(rs, MetMilestone))
  {
    if rs != [] {
      var n := |rs| - 1;
      PaidDistinct(rs[..n]);
      FilterMembers(rs[..n], MetMilestone);
      var init := Filter(rs[..n], MetMilestone);
      forall j | 0 <= j < |init|
        ensures init[j].payeeId != rs[n].payeeId
      {
        assert init[j] in rs[..n];
      }
    }
  }

  lemma PlanKeysDistinct(u: Unit, p: Plan)
    requires PoolFits(u, p.pool) && DistinctPayees(p.recipients)
    ensures DistinctKeys(TransfersOf(p, Writable(u, p)))
  {
    hide Scaled, DueOf, Filter;
    PaidDistinct(p.recipients);
    var payouts := ResolutionOf(u, p).payouts;
    assert DistinctPayoutPayees(payouts);
    FilterKeepsDistinct(payouts);
    var ts, writable := TransfersOf(p, Writable(u, p)), Writable(u, p);
    forall j, k | 0 <= j < k < |ts|
      ensures ts[j].key != ts[k].key
    {
      PrefixInjective(Correlation(p) + ":", writable[j].payeeId, writable[k].payeeId);
    }
  }

  lemma PrefixInjective(prefix: string, a: string, b: string)
    ensures prefix + a == prefix + b ==> a == b
  {
    assert (prefix + a)[|prefix|..] == a && (prefix + b)[|prefix|..] == b;
  }

  lemma PaidOfFixed(p: Plan)
    ensures p.strategy == Fixed ==> Paid(p) == p.recipients
  {
  }

  lemma FixedDue(u: Unit, pool: int, divisor: int, r: Recipient)
    ensures FixedAmount(u, r).Ok? ==> Due(u, Fixed, pool, divisor, r) == FixedAmount(u, r).value
  {
  }

  /** Adding a fixed amount's text to a sum. */
  lemma FixedMoney(u: Unit, sum: int, r: Recipient)
    ensures AddMoney(InUnits(u, sum), Money(FixedText(r), u.currency, u.decimals))
         == match FixedAmount(u, r) case Ok(v) => Ok(InUnits(u, sum + v)) case Err(e) => Err(e)
    ensures FixedAmount(u, r).Err? ==> FixedAmount(u, r).error == InvalidAmount
  {
    hide FormatAmount, FixedText;
    UnitsRead(u, sum);
  }

  lemma OnlyInvalid(m: Money)
    ensures Scaled(m).Err? ==> Scaled(m).error == InvalidAmount
  {
  }
}
