/** Distribution plans: what may be planned and what each recipient is due, in smallest units
    (packages/treasury/src/distribution.ts). */
module DistributionModel {
  import opened Wrappers
  import opened Decimal
  import opened MoneyMath
  import opened Grouping

  /** An optional JavaScript number: absent, an integer, or something Number.isInteger rejects. */
  datatype Share = Absent | Whole(value: int) | NotWhole

  datatype Recipient = Recipient(payeeId: string, share: Share, amount: Option<Money>, milestoneMet: bool)

  datatype Strategy = Proportional | Fixed | Milestone

  datatype PlanStatus = Draft | Approved | Executed

  datatype Plan = Plan(id: string, name: string, strategy: Strategy, pool: Money, recipients: seq<Recipient>, status: PlanStatus)

  datatype DistributionError =
    | PlanExists
    | PlanNotFound
    | InvalidTransition
    | InvalidShares
    | DuplicateRecipient
    | PoolExceeded
    | NoRecipients
    | MoneyFailed(error: LedgerError)

  /** The currency and scale of the engine. */
  datatype Unit = Unit(currency: string, decimals: nat)

  const MAX_SAFE_INTEGER := 9007199254740991

  const BASIS_POINTS := 10000

  // ---------------------------------------------------------------- what may be planned

  function ShareOf(r: Recipient): int {
    if r.share.Whole? then r.share.value else 0
  }

  predicate BadShare(strategy: Strategy, r: Recipient) {
    if strategy == Fixed && r.amount.Some? then ValidateMoney(r.amount.value).Err? || Scaled(r.amount.value).value < 0
    else if strategy == Fixed then !(r.share.Whole? && 0 <= r.share.value <= MAX_SAFE_INTEGER)
    else !(r.share.Whole? && 0 <= r.share.value <= BASIS_POINTS)
  }

  function TotalShares(rs: seq<Recipient>): int {
    if rs == [] then 0 else TotalShares(rs[..|rs| - 1]) + ShareOf(rs[|rs| - 1])
  }

  /** fixedAmountOf: the amount's digits, or the share's, at the engine's currency and scale. */
  function FixedText(r: Recipient): string {
    if r.amount.Some? then r.amount.value.amount
    else if ShareOf(r) < 0 then "-" + Show(-ShareOf(r)) else Show(ShareOf(r))
  }

  function FixedAmount(u: Unit, r: Recipient): Result<int, LedgerError> {
    ParseAmount(FixedText(r), u.decimals)
  }

  predicate FixedParse(u: Unit, rs: seq<Recipient>) {
    forall k :: 0 <= k < |rs| ==> FixedAmount(u, rs[k]).Ok?
  }

  predicate DistinctPayees(rs: seq<Recipient>) {
    forall j, k :: 0 <= j < k < |rs| ==> rs[j].payeeId != rs[k].payeeId
  }

  /** A pool that can be added to and subtracted from at the engine's scale. */
  predicate PoolFits(u: Unit, pool: Money) {
    pool.currency == u.currency && pool.decimals == u.decimals && Scaled(pool).Ok?
  }

  /** createPlan's checks, in order. */
  function Objection(u: Unit, strategy: Strategy, pool: Money, rs: seq<Recipient>): Option<DistributionError> {
    if rs == [] then Some(NoRecipients)
    else if !DistinctPayees(rs) then Some(DuplicateRecipient)
    else if exists k :: 0 <= k < |rs| && BadShare(strategy, rs[k]) then Some(InvalidShares)
    else if strategy == Proportional && TotalShares(rs) > BASIS_POINTS then Some(InvalidShares)
    else if strategy == Fixed && !FixedParse(u, rs) then Some(MoneyFailed(InvalidAmount))
    else if strategy == Fixed && (pool.currency != u.currency || pool.decimals != u.decimals) then Some(MoneyFailed(CurrencyMismatch))
    else if strategy == Fixed && Scaled(pool).Err? then Some(MoneyFailed(InvalidAmount))
    else if strategy == Fixed && Scaled(pool).value < SumDue(u, strategy, 0, 0, rs) then Some(PoolExceeded)
    else None
  }

  // ---------------------------------------------------------------- what is due

  /** BigInt division truncates toward zero. */
  function TruncDiv(a: int, b: int): int
    requires b > 0
  {
    if a >= 0 then a / b else -((-a) / b)
  }

  predicate MetMilestone(r: Recipient) {
    r.milestoneMet
  }

  /** The recipients that are paid. */
  function Paid(p: Plan): seq<Recipient> {
    if p.strategy == Milestone then Filter(p.recipients, MetMilestone) else p.recipients
  }

  /** The shares the pool is divided by. */
  function Divisor(p: Plan): int {
    if p.strategy == Milestone then TotalShares(Paid(p)) else BASIS_POINTS
  }

  /** What one recipient is due of a pool. */
  function Due(u: Unit, strategy: Strategy, pool: int, divisor: int, r: Recipient): int {
    if strategy == Fixed then if FixedAmount(u, r).Ok? then FixedAmount(u, r).value else 0
    else if divisor > 0 then TruncDiv(pool * ShareOf(r), divisor)
    else 0
  }

  function SumDue(u: Unit, strategy: Strategy, pool: int, divisor: int, rs: seq<Recipient>): int {
    if rs == [] then 0 else SumDue(u, strategy, pool, divisor, rs[..|rs| - 1]) + Due(u, strategy, pool, divisor, rs[|rs| - 1])
  }

  function DueOf(u: Unit, p: Plan, r: Recipient): int
    requires Scaled(p.pool).Ok?
  {
    Due(u, p.strategy, Scaled(p.pool).value, Divisor(p), r)
  }

  function Distributed(u: Unit, p: Plan): int
    requires Scaled(p.pool).Ok?
  {
    SumDue(u, p.strategy, Scaled(p.pool).value, Divisor(p), Paid(p))
  }

  /** What stays in the pool. */
  function Remainder(u: Unit, p: Plan): int
    requires Scaled(p.pool).Ok?
  {
    Scaled(p.pool).value - Distributed(u, p)
  }

  /** When resolving a plan does not throw. */
  predicate Resolves(u: Unit, p: Plan) {
    PoolFits(u, p.pool) && (p.strategy == Fixed ==> FixedParse(u, p.recipients))
  }

  /** A plan that createPlan let through. */
  predicate Admitted(u: Unit, p: Plan) {
    Objection(u, p.strategy, p.pool, p.recipients) == None
  }

  // ---------------------------------------------------------------- conservation

  predicate SharesNonNegative(rs: seq<Recipient>) {
    forall k :: 0 <= k < |rs| ==> ShareOf(rs[k]) >= 0
  }

  /** Dividing rounds each share down by less than one unit. */
  lemma FloorBounds(x: nat, t: nat)
    requires t > 0
    ensures TruncDiv(x, t) * t <= x < TruncDiv(x, t) * t + t
    ensures TruncDiv(x, t) >= 0
  {
  }

  lemma DistributeProduct(a: int, b: int, c: int)
    ensures (a + b) * c == a * c + b * c && c * (a + b) == c * a + c * b
  {
  }

  lemma NonNegativeProduct(a: int, b: int)
    requires a >= 0 && b >= 0
    ensures a * b >= 0
  {
  }

  /** Together the shares take at most their proportion of the pool, and less than one unit each under it. */
  lemma {:induction false} ShareBounds(u: Unit, strategy: Strategy, pool: nat, t: nat, rs: seq<Recipient>)
    requires strategy != Fixed && t > 0 && SharesNonNegative(rs)
    ensures var due := SumDue(u, strategy, pool, t, rs);
            && due * t <= pool * TotalShares(rs)
            && (rs != [] ==> pool * TotalShares(rs) < due * t + t * |rs|)
  {
    hide TruncDiv;
    if rs != [] {
      var n := |rs| - 1;
      var init, x := rs[..n], pool * ShareOf(rs[n]);
      ShareBounds(u, strategy, pool, t, init);
      NonNegativeProduct(pool, ShareOf(rs[n]));
      FloorBounds(x, t);
      DistributeProduct(SumDue(u, strategy, pool, t, init), TruncDiv(x, t), t);
      DistributeProduct(TotalShares(init), ShareOf(rs[n]), pool);
      DistributeProduct(n, 1, t);
    }
  }

  lemma {:induction false} MilestoneSharesNonNegative(rs: seq<Recipient>)
    requires SharesNonNegative(rs)
    ensures SharesNonNegative(Filter(rs, MetMilestone))
  {
    if rs != [] {
      MilestoneSharesNonNegative(rs[..|rs| - 1]);
    }
  }

  lemma {:induction false} TotalNonNegative(rs: seq<Recipient>)
    requires SharesNonNegative(rs)
    ensures TotalShares(rs) >= 0
  {
    if rs != [] {
      TotalNonNegative(rs[..|rs| - 1]);
    }
  }

  lemma PaidShares(u: Unit, p: Plan)
    requires Admitted(u, p) && p.strategy != Fixed
    ensures SharesNonNegative(Paid(p)) && TotalShares(Paid(p)) >= 0
    ensures p.strategy == Proportional ==> TotalShares(Paid(p)) <= BASIS_POINTS
  {
    assert SharesNonNegative(p.recipients) by {
      forall k | 0 <= k < |p.recipients|
        ensures ShareOf(p.recipients[k]) >= 0
      {
        assert !BadShare(p.strategy, p.recipients[k]);
      }
    }
    MilestoneSharesNonNegative(p.recipients);
    TotalNonNegative(Paid(p));
  }

  lemma CancelFactor(a: int, b: int, t: int)
    requires t > 0
    ensures a * t <= b * t ==> a <= b
    ensures a * t < b * t ==> a < b
  {
  }

  /** An admitted plan with a non-negative pool never distributes more than the pool. */
  lemma RemainderNonNegative(u: Unit, p: Plan)
    requires Admitted(u, p) && Resolves(u, p) && Scaled(p.pool).value >= 0
    ensures Remainder(u, p) >= 0
  {
    hide Scaled, TotalShares;
    var pool, t, rs := Scaled(p.pool).value, Divisor(p), Paid(p);
    if p.strategy == Fixed {
      FixedSumIgnoresPool(u, pool, t, rs);
    } else {
      PaidShares(u, p);
      if t > 0 {
        ShareBounds(u, p.strategy, pool, t, rs);
        NonNegativeProduct(pool, t - TotalShares(rs));
        DistributeProduct(TotalShares(rs), t - TotalShares(rs), pool);
        CancelFactor(SumDue(u, p.strategy, pool, t, rs), pool, t);
      } else {
        NothingDue(u, p.strategy, pool, t, rs);
      }
    }
  }

  lemma {:induction false} FixedSumIgnoresPool(u: Unit, pool: int, divisor: int, rs: seq<Recipient>)
    ensures SumDue(u, Fixed, pool, divisor, rs) == SumDue(u, Fixed, 0, 0, rs)
  {
    hide FixedAmount;
    if rs != [] {
      FixedSumIgnoresPool(u, pool, divisor, rs[..|rs| - 1]);
    }
  }

  lemma {:induction false} NothingDue(u: Unit, strategy: Strategy, pool: int, divisor: int, rs: seq<Recipient>)
    requires strategy != Fixed && divisor <= 0
    ensures SumDue(u, strategy, pool, divisor, rs) == 0
  {
    if rs != [] {
      NothingDue(u, strategy, pool, divisor, rs[..|rs| - 1]);
    }
  }

  /** Whether the plan means to hand out the whole pool. */
  predicate HandsOutAll(p: Plan) {
    && p.strategy != Fixed && Divisor(p) > 0
    && TotalShares(Paid(p)) == Divisor(p)
  }

  /** Then only rounding stays behind: fewer smallest units than recipients paid. */
  lemma RemainderIsDust(u: Unit, p: Plan)
    requires Admitted(u, p) && Resolves(u, p) && Scaled(p.pool).value >= 0 && HandsOutAll(p)
    ensures 0 <= Remainder(u, p) < |Paid(p)|
  {
    hide Scaled, TotalShares;
    var pool, t, rs := Scaled(p.pool).value, Divisor(p), Paid(p);
    RemainderNonNegative(u, p);
    PaidShares(u, p);
    NoShares(rs);
    ShareBounds(u, p.strategy, pool, t, rs);
    DistributeProduct(SumDue(u, p.strategy, pool, t, rs), |rs|, t);
    CancelFactor(pool, SumDue(u, p.strategy, pool, t, rs) + |rs|, t);
  }

  lemma NoShares(rs: seq<Recipient>)
    ensures rs == [] ==> TotalShares(rs) == 0
  {
  }
}
