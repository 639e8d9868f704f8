/** Balances of one account (packages/ledger/src/balance-calculator.ts): unlike the trial balance they never
    mix currencies up, because the joined keys of one account differ exactly when the currencies do. */
module AccountBalances {
  import opened Wrappers
  import opened MoneyMath
  import opened Grouping
  import opened LedgerModel
  import opened TrialBalance
  import opened Ledgers

  datatype CurrencyBalance = CurrencyBalance(currency: string, decimals: int, balance: string, totalDebits: string, totalCredits: string)

  function AccountOf(e: Entry): string {
    e.accountId
  }

  function CurrencyOf(e: Entry): string {
    e.money.currency
  }

  /** The account's entries, in order. */
  function Own(entries: seq<Entry>, accountId: string): seq<Entry> {
    Select(entries, AccountOf, accountId)
  }

  function OfAccount(accountId: string, currency: string): Query {
    Query(Some(accountId), Some(currency), None)
  }

  /** The balance of an account in one currency: its debits and credits there, netted by its normal side. */
  ghost predicate IsBalance(b: CurrencyBalance, kind: AccountType, entries: seq<Entry>, accountId: string, currency: string) {
    var debits, credits := Sum(entries, OfAccount(accountId, currency), Debit), Sum(entries, OfAccount(accountId, currency), Credit);
    && b.currency == currency && b.decimals >= 0
    && b.balance == FormatAmount(if DebitNormal(kind) then debits - credits else credits - debits, b.decimals)
    && b.totalDebits == FormatAmount(debits, b.decimals) && b.totalCredits == FormatAmount(credits, b.decimals)
  }

  /** A report on an account: every currency it has entries in, once. */
  ghost predicate Reports(balances: seq<CurrencyBalance>, entries: seq<Entry>, accounts: seq<Account>, accountId: string) {
    var currencies := Keys(Own(entries, accountId), CurrencyOf);
    && HasAccount(accounts, accountId) && |balances| == |currencies|
    && forall i :: 0 <= i < |currencies| ==> IsBalance(balances[i], KindOf(accounts, accountId), entries, accountId, currencies[i])
  }

  lemma KeyOfCurrency(accountId: string, c: string, d: string)
    ensures BalanceKey(accountId, c) == BalanceKey(accountId, d) <==> c == d
  {
    var k, j := BalanceKey(accountId, c), BalanceKey(accountId, d);
    assert k[|accountId| + 2..] == c && j[|accountId| + 2..] == d;
  }

  /** Within one account the joined keys and groups are those of the currencies. */
  lemma {:induction false} KeysAreCurrencies(own: seq<Entry>, accountId: string)
    requires AllKeyed(own, AccountOf, accountId)
    ensures var ks, cs := Keys(own, ByBalance), Keys(own, CurrencyOf);
            |ks| == |cs| && forall i :: 0 <= i < |ks| ==> ks[i] == BalanceKey(accountId, cs[i])
    ensures forall c :: Select(own, ByBalance, BalanceKey(accountId, c)) == Select(own, CurrencyOf, c)
  {
    if own != [] {
      var init, e := own[..|own| - 1], own[|own| - 1];
      KeysAreCurrencies(init, accountId);
      var ks, cs := Keys(init, ByBalance), Keys(init, CurrencyOf);
      forall c
        ensures BalanceKey(accountId, e.money.currency) == BalanceKey(accountId, c) <==> e.money.currency == c
      {
        KeyOfCurrency(accountId, e.money.currency, c);
      }
      assert ByBalance(e) in ks <==> CurrencyOf(e) in cs;
    }
  }

  lemma {:induction false} OwnSum(entries: seq<Entry>, accountId: string, currency: string, side: Side)
    ensures Sum(Select(Own(entries, accountId), CurrencyOf, currency), Everything, side) == Sum(entries, OfAccount(accountId, currency), side)
  {
    hide Part;
    if entries != [] {
      var init, e := entries[..|entries| - 1], entries[|entries| - 1];
      var own := Select(Own(init, accountId), CurrencyOf, currency);
      OwnSum(init, accountId, currency, side);
      PartOfAccount(e, accountId, currency, side);
      SnocSelect(Own(init, accountId), e, CurrencyOf, currency);
      SumSnoc(own, e, Everything, side);
    }
  }

  lemma PartOfAccount(e: Entry, accountId: string, currency: string, side: Side)
    ensures Part(e, OfAccount(accountId, currency), side)
         == if e.accountId == accountId && e.money.currency == currency then Part(e, Everything, side) else 0
  {
    hide Units;
  }

  /** computeAccountBalance: throws for an unknown account or an amount that does not parse, and otherwise
      reports every currency of the account once, with its exact sums. */
  method ComputeAccountBalance(accountId: string, entries: seq<Entry>, accounts: seq<Account>) returns (r: Result<seq<CurrencyBalance>, LedgerError>)
    ensures r.Ok? <==> HasAccount(accounts, accountId) && AllParse(Own(entries, accountId))
    ensures !HasAccount(accounts, accountId) ==> r == Err(UnknownAccount)
    ensures r.Ok? ==> Reports(r.value, entries, accounts, accountId)
  {
    hide ParseAmount, FormatAmount, Keys, Select, Sum, KindOf, HasAccount, IsBalance;
    if !HasAccount(accounts, accountId) { return Err(UnknownAccount); }
    var own := Own(entries, accountId);
    SelectKeyed(entries, AccountOf, accountId);
    KeysAreCurrencies(own, accountId);
    var order, accs, failed := BuildAccumulators(own);
    if failed { return Err(InvalidAmount); }
    var kind := KindOf(accounts, accountId);
    var balances: seq<CurrencyBalance> := [];
    for i := 0 to |order|
      invariant |balances| == i
      invariant forall j :: 0 <= j < i ==> IsBalance(balances[j], kind, entries, accountId, Keys(own, CurrencyOf)[j])
    {
      assert order[i] in order;
      var acc := accs[order[i]];
      GroupParses(own, order[i]);
      GroupBalance(entries, accountId, Keys(own, CurrencyOf)[i], kind);
      var net := if DebitNormal(kind) then acc.totalDebits - acc.totalCredits else acc.totalCredits - acc.totalDebits;
      balances := balances + [CurrencyBalance(acc.currency, acc.decimals, FormatAmount(net, acc.decimals),
                                              FormatAmount(acc.totalDebits, acc.decimals), FormatAmount(acc.totalCredits, acc.decimals))];
    }
    r := Ok(balances);
  }

  lemma GroupBalance(entries: seq<Entry>, accountId: string, currency: string, kind: AccountType)
    requires var group := Select(Own(entries, accountId), CurrencyOf, currency); group != [] && Scaled(group[0].money).Ok?
    ensures var acc := AccumulatorOf(Select(Own(entries, accountId), CurrencyOf, currency));
            && acc.decimals >= 0
            && IsBalance(CurrencyBalance(acc.currency, acc.decimals,
                                         FormatAmount(if DebitNormal(kind) then acc.totalDebits - acc.totalCredits
                                                      else acc.totalCredits - acc.totalDebits, acc.decimals),
                                         FormatAmount(acc.totalDebits, acc.decimals), FormatAmount(acc.totalCredits, acc.decimals)),
                         kind, entries, accountId, currency)
  {
    hide FormatAmount, Sum, Select;
    OwnSum(entries, accountId, currency, Debit);
    OwnSum(entries, accountId, currency, Credit);
    SelectKeyed(Own(entries, accountId), CurrencyOf, currency);
  }
}
