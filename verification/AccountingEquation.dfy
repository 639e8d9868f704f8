/** What reported balances mean for the books as a whole: which side an account's balance is counted on, and that
    the two sides of the books are equal (packages/ledger/src/balance-calculator.ts, packages/ledger/src/types.ts). */
module AccountingEquation {
  import opened Wrappers
  import opened MoneyMath
  import opened Grouping
  import opened LedgerModel
  import opened TrialBalance
  import opened AccountBalances

  /** What a report says of one currency, read back from its text; 0 when it does not mention the currency. */
  function BalanceIn(balances: seq<CurrencyBalance>, c: string): int {
    if balances == [] then 0
    else
      var last := balances[|balances| - 1];
      BalanceIn(balances[..|balances| - 1], c)
      + if last.currency == c && ParseAmount(last.balance, last.decimals).Ok? then ParseAmount(last.balance, last.decimals).value else 0
  }

  /** Debits minus credits of an account in a currency. */
  function NetDebit(entries: seq<Entry>, accountId: string, c: string): int {
    Sum(entries, OfAccount(accountId, c), Debit) - Sum(entries, OfAccount(accountId, c), Credit)
  }

  /** The balance by the kind of the account. */
  function ByKind(kind: AccountType, netDebit: int): int {
    match kind
    case Asset => netDebit
    case Expense => netDebit
    case Liability => -netDebit
    case Income => -netDebit
    case Equity => -netDebit
  }

  lemma ReadBalance(b: CurrencyBalance, kind: AccountType, entries: seq<Entry>, accountId: string, c: string)
    requires IsBalance(b, kind, entries, accountId, c)
    ensures ParseAmount(b.balance, b.decimals) == Ok(ByKind(kind, NetDebit(entries, accountId, c)))
  {
    hide FormatAmount, ParseAmount, Sum;
    ParseFormat(ByKind(kind, NetDebit(entries, accountId, c)), b.decimals);
  }

  lemma {:induction false} BalanceOfList(balances: seq<CurrencyBalance>, currencies: seq<string>, kind: AccountType,
                                         entries: seq<Entry>, accountId: string, c: string)
    requires |balances| == |currencies| && Distinct(currencies)
    requires forall i :: 0 <= i < |currencies| ==> IsBalance(balances[i], kind, entries, accountId, currencies[i])
    ensures BalanceIn(balances, c) == if c in currencies then ByKind(kind, NetDebit(entries, accountId, c)) else 0
  {
    hide IsBalance, ParseAmount, NetDebit;
    if balances != [] {
      var n := |balances| - 1;
      BalanceOfList(balances[..n], currencies[..n], kind, entries, accountId, c);
      ReadBalance(balances[n], kind, entries, accountId, currencies[n]);
      CurrencyIs(balances[n], kind, entries, accountId, currencies[n]);
      assert currencies == currencies[..n] + [currencies[n]];
    }
  }

  lemma CurrencyIs(b: CurrencyBalance, kind: AccountType, entries: seq<Entry>, accountId: string, c: string)
    requires IsBalance(b, kind, entries, accountId, c)
    ensures b.currency == c
  {
  }

  /** No entries of an account in a currency, no balance. */
  lemma {:induction false} NoEntriesNoNet(entries: seq<Entry>, accountId: string, c: string, side: Side)
    requires c !in Keys(Own(entries, accountId), CurrencyOf)
    ensures Sum(entries, OfAccount(accountId, c), side) == 0
  {
    hide Part, Keys, Select;
    SelectKeyed(Own(entries, accountId), CurrencyOf, c);
    OwnSum(entries, accountId, c, side);
    assert Select(Own(entries, accountId), CurrencyOf, c) == [];
    assert Sum([], Everything, side) == 0;
  }

  /** What a report says of any currency. */
  lemma ReportedBalance(balances: seq<CurrencyBalance>, entries: seq<Entry>, accounts: seq<Account>, accountId: string, c: string)
    requires Reports(balances, entries, accounts, accountId)
    ensures BalanceIn(balances, c) == ByKind(KindOf(accounts, accountId), NetDebit(entries, accountId, c))
  {
    hide IsBalance, Keys, Sum, KindOf, Own;
    var own, kind := Own(entries, accountId), KindOf(accounts, accountId);
    KeysAre(own, CurrencyOf);
    BalanceOfList(balances, Keys(own, CurrencyOf), kind, entries, accountId, c);
    if c !in Keys(own, CurrencyOf) {
      NoEntriesNoNet(entries, accountId, c, Debit);
      NoEntriesNoNet(entries, accountId, c, Credit);
    }
  }

  lemma {:induction false} KindOfAccount(accounts: seq<Account>, i: nat)
    requires i < |accounts| && DistinctAccounts(accounts)
    ensures HasAccount(accounts, accounts[i].id) && KindOf(accounts, accounts[i].id) == accounts[i].kind
  {
    var n := |accounts| - 1;
    if i < n {
      KindOfAccount(accounts[..n], i);
      assert accounts[i].id != accounts[n].id;
    }
  }

  // ---------------------------------------------------------------- one account

  /** All entries of the account in the currency are on one side, and there are some. */
  ghost predicate OnlyOn(entries: seq<Entry>, accountId: string, c: string, side: Side) {
    && (exists k :: 0 <= k < |entries| && entries[k].accountId == accountId && entries[k].money.currency == c)
    && forall k :: 0 <= k < |entries| && entries[k].accountId == accountId && entries[k].money.currency == c ==> entries[k].side == side
  }

  lemma {:induction false} OneSidedSum(entries: seq<Entry>, accountId: string, c: string, side: Side)
    requires forall k :: 0 <= k < |entries| ==> Units(entries[k]) > 0
    requires forall k :: 0 <= k < |entries| && entries[k].accountId == accountId && entries[k].money.currency == c ==> entries[k].side == side
    ensures Sum(entries, OfAccount(accountId, c), side) >= 0
    ensures Sum(entries, OfAccount(accountId, c), side) == 0 ==> forall k :: 0 <= k < |entries| ==> !(entries[k].accountId == accountId && entries[k].money.currency == c)
    ensures forall other: Side :: other != side ==> Sum(entries, OfAccount(accountId, c), other) == 0
  {
    hide Units;
    if entries != [] {
      var n := |entries| - 1;
      OneSidedSum(entries[..n], accountId, c, side);
      assert entries == entries[..n] + [entries[n]];
    }
  }

  lemma SoundUnits(st: State)
    requires WellFormed(st)
    ensures forall k :: 0 <= k < |st.entries| ==> Units(st.entries[k]) > 0 && HasAccount(st.accounts, st.entries[k].accountId)
  {
    hide Units, Sum, HasAccount;
    forall k | 0 <= k < |st.entries|
      ensures Units(st.entries[k]) > 0 && HasAccount(st.accounts, st.entries[k].accountId)
    {
      assert SoundEntry(st.accounts, st.entries[k]);
    }
  }

  /** In every reachable ledger an account that has only been debited reports a positive balance exactly if it
      is an asset or expense account, and one that has only been credited exactly if it is a liability, income or
      equity account; otherwise the balance is negative. */
  lemma NormalSides(ops: seq<Op>, i: nat, balances: seq<CurrencyBalance>, c: string, side: Side)
    requires var st := Run(ops); i < |st.accounts| && Reports(balances, st.entries, st.accounts, st.accounts[i].id)
                                 && OnlyOn(st.entries, st.accounts[i].id, c, side)
    ensures var kind, balance := Run(ops).accounts[i].kind, BalanceIn(balances, c);
            && balance != 0
            && (side == Debit ==> (balance > 0 <==> kind in {Asset, Expense}))
            && (side == Credit ==> (balance > 0 <==> kind in {Liability, Income, Equity}))
  {
    hide Run, Sum, KindOf, Reports, WellFormed;
    var st := Run(ops);
    RunWellFormed(ops);
    SoundUnits(st);
    WellFormedParts(st);
    KindOfAccount(st.accounts, i);
    ReportedBalance(balances, st.entries, st.accounts, st.accounts[i].id, c);
    OneSidedSum(st.entries, st.accounts[i].id, c, side);
  }

  lemma WellFormedParts(st: State)
    requires WellFormed(st)
    ensures DistinctAccounts(st.accounts) && Balanced(st.entries)
  {
  }

  /** The total debits or credits a report states for a currency, read back. */
  function TotalIn(balances: seq<CurrencyBalance>, c: string, side: Side): int {
    if balances == [] then 0
    else
      var last := balances[|balances| - 1];
      var parsed := ParseAmount(if side == Debit then last.totalDebits else last.totalCredits, last.decimals);
      TotalIn(balances[..|balances| - 1], c, side) + if last.currency == c && parsed.Ok? then parsed.value else 0
  }

  lemma ReadTotals(b: CurrencyBalance, kind: AccountType, entries: seq<Entry>, accountId: string, c: string)
    requires IsBalance(b, kind, entries, accountId, c)
    ensures ParseAmount(b.totalDebits, b.decimals) == Ok(Sum(entries, OfAccount(accountId, c), Debit))
    ensures ParseAmount(b.totalCredits, b.decimals) == Ok(Sum(entries, OfAccount(accountId, c), Credit))
  {
    hide FormatAmount, ParseAmount, Sum;
    ParseFormat(Sum(entries, OfAccount(accountId, c), Debit), b.decimals);
    ParseFormat(Sum(entries, OfAccount(accountId, c), Credit), b.decimals);
  }

  lemma {:induction false} TotalsOfList(balances: seq<CurrencyBalance>, currencies: seq<string>, kind: AccountType,
                                        entries: seq<Entry>, accountId: string, c: string, side: Side)
    requires |balances| == |currencies| && Distinct(currencies)
    requires forall i :: 0 <= i < |currencies| ==> IsBalance(balances[i], kind, entries, accountId, currencies[i])
    ensures TotalIn(balances, c, side) == if c in currencies then Sum(entries, OfAccount(accountId, c), side) else 0
  {
    hide IsBalance, ParseAmount, Sum;
    if balances != [] {
      var n := |balances| - 1;
      TotalsOfList(balances[..n], currencies[..n], kind, entries, accountId, c, side);
      ReadTotals(balances[n], kind, entries, accountId, currencies[n]);
      CurrencyIs(balances[n], kind, entries, accountId, currencies[n]);
      assert currencies == currencies[..n] + [currencies[n]];
    }
  }

  /** The totals a report states are the sums of the account's debits and credits in the currency. */
  lemma ReportedTotals(balances: seq<CurrencyBalance>, entries: seq<Entry>, accounts: seq<Account>, accountId: string, c: string, side: Side)
    requires Reports(balances, entries, accounts, accountId)
    ensures TotalIn(balances, c, side) == Sum(entries, OfAccount(accountId, c), side)
  {
    hide IsBalance, Keys, Sum, KindOf, Own;
    var own := Own(entries, accountId);
    KeysAre(own, CurrencyOf);
    TotalsOfList(balances, Keys(own, CurrencyOf), KindOf(accounts, accountId), entries, accountId, c, side);
    if c !in Keys(own, CurrencyOf) {
      NoEntriesNoNet(entries, accountId, c, side);
    }
  }

  // ---------------------------------------------------------------- the two sides of the books

  /** One report for each account, in order. */
  ghost predicate AllReports(reports: seq<seq<CurrencyBalance>>, st: State) {
    |reports| == |st.accounts| && forall i :: 0 <= i < |reports| ==> Reports(reports[i], st.entries, st.accounts, st.accounts[i].id)
  }

  /** What the accounts of some kinds report in a currency, together. */
  function SideTotal(accounts: seq<Account>, reports: seq<seq<CurrencyBalance>>, kinds: set<AccountType>, c: string): int
    requires |reports| == |accounts|
  {
    if accounts == [] then 0
    else
      var n := |accounts| - 1;
      SideTotal(accounts[..n], reports[..n], kinds, c) + if accounts[n].kind in kinds then BalanceIn(reports[n], c) else 0
  }

  /** The debits minus credits of all accounts of a list. */
  function NetOf(accounts: seq<Account>, entries: seq<Entry>, c: string): int {
    if accounts == [] then 0 else NetOf(accounts[..|accounts| - 1], entries, c) + NetDebit(entries, accounts[|accounts| - 1].id, c)
  }

  lemma {:induction false} SidesAreNet(accounts: seq<Account>, reports: seq<seq<CurrencyBalance>>, entries: seq<Entry>, c: string)
    requires |reports| == |accounts|
    requires forall i :: 0 <= i < |accounts| ==> BalanceIn(reports[i], c) == ByKind(accounts[i].kind, NetDebit(entries, accounts[i].id, c))
    ensures SideTotal(accounts, reports, {Asset, Expense}, c) - SideTotal(accounts, reports, {Liability, Income, Equity}, c)
         == NetOf(accounts, entries, c)
  {
    hide BalanceIn, NetDebit;
    if accounts != [] {
      var n := |accounts| - 1;
      SidesAreNet(accounts[..n], reports[..n], entries, c);
    }
  }

  /** An entry's net effect on a list of accounts: its own if its account is among them, else none. */
  function EntryNet(e: Entry, c: string): int {
    if e.money.currency != c then 0 else if e.side == Debit then Units(e) else -Units(e)
  }

  lemma NetDebitSnoc(entries: seq<Entry>, e: Entry, accountId: string, c: string)
    ensures NetDebit(entries + [e], accountId, c) == NetDebit(entries, accountId, c) + if e.accountId == accountId then EntryNet(e, c) else 0
  {
    SumSnoc(entries, e, OfAccount(accountId, c), Debit);
    SumSnoc(entries, e, OfAccount(accountId, c), Credit);
  }

  lemma {:induction false} NetOfSnoc(accounts: seq<Account>, entries: seq<Entry>, e: Entry, c: string)
    requires DistinctAccounts(accounts)
    ensures NetOf(accounts, entries + [e], c) == NetOf(accounts, entries, c) + if HasAccount(accounts, e.accountId) then EntryNet(e, c) else 0
  {
    hide NetDebit, EntryNet;
    if accounts != [] {
      var n := |accounts| - 1;
      NetOfSnoc(accounts[..n], entries, e, c);
      NetDebitSnoc(entries, e, accounts[n].id, c);
      assert accounts == accounts[..n] + [accounts[n]];
      assert HasAccount(accounts, e.accountId) <==> HasAccount(accounts[..n], e.accountId) || accounts[n].id == e.accountId;
    }
  }

  lemma {:induction false} NetOfNothing(accounts: seq<Account>, c: string)
    ensures NetOf(accounts, [], c) == 0
  {
    if accounts != [] {
      NetOfNothing(accounts[..|accounts| - 1], c);
    }
  }

  /** Over all accounts the nets add up to the net of all entries. */
  lemma {:induction false} NetOfAll(accounts: seq<Account>, entries: seq<Entry>, c: string)
    requires DistinctAccounts(accounts) && forall k :: 0 <= k < |entries| ==> HasAccount(accounts, entries[k].accountId)
    ensures NetOf(accounts, entries, c) == Sum(entries, InCurrency(c), Debit) - Sum(entries, InCurrency(c), Credit)
  {
    hide NetOf, HasAccount, Units;
    if entries == [] {
      NetOfNothing(accounts, c);
    } else {
      var n := |entries| - 1;
      NetOfAll(accounts, entries[..n], c);
      NetOfSnoc(accounts, entries[..n], entries[n], c);
      assert entries == entries[..n] + [entries[n]];
    }
  }

  /** The accounting equation: in every reachable ledger and every currency, what asset and expense accounts
      report adds up to what liability, income and equity accounts report. */
  lemma BooksBalance(ops: seq<Op>, reports: seq<seq<CurrencyBalance>>, c: string)
    requires AllReports(reports, Run(ops))
    ensures SideTotal(Run(ops).accounts, reports, {Asset, Expense}, c) == SideTotal(Run(ops).accounts, reports, {Liability, Income, Equity}, c)
  {
    hide Run, Sum, KindOf, Reports, WellFormed, HasAccount;
    var st := Run(ops);
    RunWellFormed(ops);
    WellFormedParts(st);
    SoundUnits(st);
    forall i | 0 <= i < |st.accounts|
      ensures BalanceIn(reports[i], c) == ByKind(st.accounts[i].kind, NetDebit(st.entries, st.accounts[i].id, c))
    {
      KindOfAccount(st.accounts, i);
      ReportedBalance(reports[i], st.entries, st.accounts, st.accounts[i].id, c);
    }
    SidesAreNet(st.accounts, reports, st.entries, c);
    NetOfAll(st.accounts, st.entries, c);
  }
}
