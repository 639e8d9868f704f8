/** The trial balance: entries accumulated under the joined key `account::currency`, net positions split
    into a debit and a credit column, and the check that the columns agree per currency
    (packages/ledger/src/balance-calculator.ts). */
module TrialBalance {
  import opened Wrappers
  import opened MoneyMath
  import opened Grouping
  import opened LedgerModel

  function BalanceKey(accountId: string, currency: string): string {
    accountId + ("::" + currency)
  }

  const ByBalance: Entry -> string := (e: Entry) => BalanceKey(e.accountId, e.money.currency)

  datatype Line = Line(accountId: string, kind: AccountType, currency: string, decimals: nat, debit: string, credit: string)

  function KindOf(accounts: seq<Account>, id: string): AccountType
    requires HasAccount(accounts, id)
  {
    var last := accounts[|accounts| - 1];
    if last.id == id then last.kind else KindOf(accounts[..|accounts| - 1], id)
  }

  predicate DebitNormal(kind: AccountType) {
    kind == Asset || kind == Expense
  }

  const Everything := Query(None, None, None)

  function Net(es: seq<Entry>, q: Query): int {
    Sum(es, q, Debit) - Sum(es, q, Credit)
  }

  /** The debit and credit column of a net debit position, by the account's normal balance. */
  function Columns(kind: AccountType, netDebit: int): (int, int) {
    if DebitNormal(kind) then
      if netDebit >= 0 then (netDebit, 0) else (0, -netDebit)
    else
      var netCredit := -netDebit;
      if netCredit >= 0 then (0, netCredit) else (-netCredit, 0)
  }

  predicate SoundGroup(accounts: seq<Account>, group: seq<Entry>) {
    group != [] && HasAccount(accounts, group[0].accountId) && Scaled(group[0].money).Ok?
  }

  /** The report line of one accumulator: named and scaled by its first entry. */
  function LineOf(accounts: seq<Account>, group: seq<Entry>): Line
    requires SoundGroup(accounts, group)
  {
    var e := group[0];
    var columns := Columns(KindOf(accounts, e.accountId), Net(group, Everything));
    Line(e.accountId, KindOf(accounts, e.accountId), e.money.currency, e.money.decimals,
         FormatAmount(columns.0, e.money.decimals), FormatAmount(columns.1, e.money.decimals))
  }

  ghost predicate SoundKeys(st: State, ks: seq<string>) {
    forall i :: 0 <= i < |ks| ==> SoundGroup(st.accounts, Select(st.entries, ByBalance, ks[i]))
  }

  ghost function LinesFor(st: State, ks: seq<string>): seq<Line>
    requires SoundKeys(st, ks)
  {
    seq(|ks|, i requires 0 <= i < |ks| => LineOf(st.accounts, Select(st.entries, ByBalance, ks[i])))
  }

  lemma KeysAreSound(st: State)
    requires forall i :: 0 <= i < |st.entries| ==> SoundEntry(st.accounts, st.entries[i])
    ensures SoundKeys(st, Keys(st.entries, ByBalance))
  {
    var ks := Keys(st.entries, ByBalance);
    forall i | 0 <= i < |ks|
      ensures SoundGroup(st.accounts, Select(st.entries, ByBalance, ks[i]))
    {
      SelectKeyed(st.entries, ByBalance, ks[i]);
      var e := Select(st.entries, ByBalance, ks[i])[0];
      assert e in st.entries;
    }
  }

  /** computeTrialBalance: one line per accumulator, in order of first appearance. */
  ghost function Lines(st: State): seq<Line>
    requires WellFormed(st)
  {
    KeysAreSound(st);
    LinesFor(st, Keys(st.entries, ByBalance))
  }

  function ColumnOf(line: Line, side: Side): int {
    var parsed := ParseAmount(if side == Debit then line.debit else line.credit, line.decimals);
    if parsed.Ok? then parsed.value else 0
  }

  function InColumn(line: Line, c: string, side: Side): int {
    if line.currency == c then ColumnOf(line, side) else 0
  }

  /** One column's total for a currency, re-parsed from the formatted lines. */
  function Column(lines: seq<Line>, c: string, side: Side): int {
    if lines == [] then 0
    else
      Column(lines[..|lines| - 1], c, side) + InColumn(lines[|lines| - 1], c, side)
  }

  /** What assertTrialBalanced lets through. */
  ghost predicate TrialBalanced(lines: seq<Line>) {
    forall c :: Column(lines, c, Debit) == Column(lines, c, Credit)
  }

  // ---------------------------------------------------------------- unambiguous keys balance

  /** Splitting a net position into columns and formatting them keeps the net position. */
  lemma LineKeepsNet(accounts: seq<Account>, group: seq<Entry>)
    requires SoundGroup(accounts, group)
    ensures var line := LineOf(accounts, group);
            && ColumnOf(line, Debit) - ColumnOf(line, Credit) == Net(group, Everything)
            && ColumnOf(line, Debit) >= 0 && ColumnOf(line, Credit) >= 0
            && (ColumnOf(line, Debit) == 0 || ColumnOf(line, Credit) == 0)
  {
    var e := group[0];
    var columns := Columns(KindOf(accounts, e.accountId), Net(group, Everything));
    ParseFormat(columns.0, e.money.decimals);
    ParseFormat(columns.1, e.money.decimals);
  }

  /** No two entries of different currencies share an accumulator. */
  ghost predicate Unambiguous(es: seq<Entry>) {
    forall i, j :: 0 <= i < |es| && 0 <= j < |es| && ByBalance(es[i]) == ByBalance(es[j])
      ==> es[i].money.currency == es[j].money.currency
  }

  ghost predicate OneCurrency(es: seq<Entry>, c: string) {
    forall i :: 0 <= i < |es| ==> es[i].money.currency == c
  }

  lemma {:induction false} NetOneCurrency(es: seq<Entry>, c: string, d: string)
    requires OneCurrency(es, c)
    ensures Net(es, InCurrency(d)) == if c == d then Net(es, Everything) else 0
  {
    if es != [] {
      NetOneCurrency(es[..|es| - 1], c, d);
    }
  }

  lemma GroupHasOneCurrency(es: seq<Entry>, k: string)
    requires Unambiguous(es) && k in Keys(es, ByBalance)
    ensures var g := Select(es, ByBalance, k); g != [] && OneCurrency(g, g[0].money.currency)
  {
    var g := Select(es, ByBalance, k);
    SelectKeyed(es, ByBalance, k);
    forall i | 0 <= i < |g|
      ensures g[i].money.currency == g[0].money.currency
    {
      assert g[i] in es && g[0] in es;
      var a :| 0 <= a < |es| && es[a] == g[i];
      var b :| 0 <= b < |es| && es[b] == g[0];
      assert ByBalance(es[a]) == ByBalance(g[i]) == k == ByBalance(es[b]);
    }
  }

  /** A line of a one-currency group carries the group's net position in its own currency only. */
  lemma LineForCurrency(accounts: seq<Account>, g: seq<Entry>, c: string)
    requires SoundGroup(accounts, g)
    requires OneCurrency(g, g[0].money.currency)
    ensures LineNet(LineOf(accounts, g), c) == Net(g, InCurrency(c))
  {
    NetOneCurrency(g, g[0].money.currency, c);
    LineKeepsNet(accounts, g);
  }

  function LineNet(line: Line, c: string): int {
    if line.currency == c then ColumnOf(line, Debit) - ColumnOf(line, Credit) else 0
  }

  lemma NetConcat(a: seq<Entry>, b: seq<Entry>, q: Query)
    ensures Net(a + b, q) == Net(a, q) + Net(b, q)
  {
    SumConcat(a, b, q, Debit);
    SumConcat(a, b, q, Credit);
  }

  /** Lines that carry their groups' net positions have columns that differ by the net of all groups. */
  lemma {:induction false} ColumnsAddUp(lines: seq<Line>, es: seq<Entry>, ks: seq<string>, c: string)
    requires |lines| == |ks|
    requires forall i :: 0 <= i < |ks| ==> LineNet(lines[i], c) == Net(Select(es, ByBalance, ks[i]), InCurrency(c))
    ensures Column(lines, c, Debit) - Column(lines, c, Credit) == Net(Flatten(es, ByBalance, ks), InCurrency(c))
  {
    if ks != [] {
      var n := |ks| - 1;
      ColumnsAddUp(lines[..n], es, ks[..n], c);
      NetConcat(Flatten(es, ByBalance, ks[..n]), Select(es, ByBalance, ks[n]), InCurrency(c));
      assert LineNet(lines[n], c) == Net(Select(es, ByBalance, ks[n]), InCurrency(c));
    }
  }

  lemma NetOfAll(es: seq<Entry>, c: string)
    requires Balanced(es)
    ensures Net(Regroup(es, ByBalance), InCurrency(c)) == 0
  {
    RegroupPermutes(es, ByBalance);
    SumPermuted(Regroup(es, ByBalance), es, InCurrency(c), Debit);
    SumPermuted(Regroup(es, ByBalance), es, InCurrency(c), Credit);
  }

  lemma LinesCarryNet(st: State, ks: seq<string>, c: string)
    requires SoundKeys(st, ks) && Unambiguous(st.entries)
    requires forall i :: 0 <= i < |ks| ==> ks[i] in Keys(st.entries, ByBalance)
    ensures forall i :: 0 <= i < |ks| ==>
              LineNet(LinesFor(st, ks)[i], c) == Net(Select(st.entries, ByBalance, ks[i]), InCurrency(c))
  {
    forall i | 0 <= i < |ks|
      ensures LineNet(LinesFor(st, ks)[i], c) == Net(Select(st.entries, ByBalance, ks[i]), InCurrency(c))
    {
      var g := Select(st.entries, ByBalance, ks[i]);
      assert SoundGroup(st.accounts, g);
      GroupHasOneCurrency(st.entries, ks[i]);
      LineForCurrency(st.accounts, g, c);
    }
  }

  lemma UnambiguousBalances(st: State)
    requires WellFormed(st) && Unambiguous(st.entries)
    ensures TrialBalanced(Lines(st))
  {
    var ks := Keys(st.entries, ByBalance);
    KeysAreSound(st);
    forall c
      ensures Column(Lines(st), c, Debit) == Column(Lines(st), c, Credit)
    {
      LinesCarryNet(st, ks, c);
      ColumnsAddUp(LinesFor(st, ks), st.entries, ks, c);
      NetOfAll(st.entries, c);
    }
  }

  // ---------------------------------------------------------------- which currencies can collide

  predicate EndsWith(s: string, t: string) {
    |t| <= |s| && forall i :: 0 <= i < |t| ==> s[|s| - |t| + i] == t[i]
  }

  /** No currency of C, prefixed with the separator, ends in another one so prefixed. A caller can
      check this before using the currencies; blank currencies are refused by validateMoney anyway. */
  ghost predicate Unconfusable(C: set<string>) {
    forall c, d :: c in C && d in C && c != d && Trim(c) != "" && Trim(d) != "" ==> !EndsWith("::" + c, "::" + d)
  }

  ghost predicate CurrenciesIn(es: seq<Entry>, C: set<string>) {
    forall i :: 0 <= i < |es| ==> es[i].money.currency in C
  }

  /** Two joined keys are equal only if one prefixed currency ends in the other. */
  lemma SharedKeyShape(a: string, c: string, b: string, d: string)
    requires BalanceKey(a, c) == BalanceKey(b, d) && |d| <= |c|
    ensures EndsWith("::" + c, "::" + d)
    ensures |c| == |d| ==> c == d
  {
    var s, t := "::" + c, "::" + d;
    forall i | 0 <= i < |t|
      ensures s[|s| - |t| + i] == t[i]
    {
      assert (a + s)[|b| + i] == s[|s| - |t| + i];
      assert (b + t)[|b| + i] == t[i];
    }
    if |c| == |d| {
      SamePrefixed(c, d);
    }
  }

  lemma SamePrefixed(c: string, d: string)
    requires |c| == |d| && EndsWith("::" + c, "::" + d)
    ensures c == d
  {
    var s, t := "::" + c, "::" + d;
    forall i | 0 <= i < |c|
      ensures c[i] == d[i]
    {
      assert s[i + 2] == c[i] && t[i + 2] == d[i];
    }
  }

  lemma UnconfusableIsUnambiguous(st: State, C: set<string>)
    requires WellFormed(st) && CurrenciesIn(st.entries, C) && Unconfusable(C)
    ensures Unambiguous(st.entries)
  {
    var es := st.entries;
    forall i, j | 0 <= i < |es| && 0 <= j < |es| && ByBalance(es[i]) == ByBalance(es[j])
      ensures es[i].money.currency == es[j].money.currency
    {
      assert Rejection(es[i]) == None && Rejection(es[j]) == None by {
        assert SoundEntry(st.accounts, es[i]) && SoundEntry(st.accounts, es[j]);
      }
      DistinctCurrenciesDiffer(es[i], es[j], C);
    }
  }

  lemma DistinctCurrenciesDiffer(e: Entry, f: Entry, C: set<string>)
    requires Unconfusable(C) && e.money.currency in C && f.money.currency in C
    requires Rejection(e) == None && Rejection(f) == None && ByBalance(e) == ByBalance(f)
    ensures e.money.currency == f.money.currency
  {
    var c, d := e.money.currency, f.money.currency;
    assert Trim(c) != "" && Trim(d) != "";
    if |d| <= |c| {
      SharedKeyShape(e.accountId, c, f.accountId, d);
    } else {
      SharedKeyShape(f.accountId, d, e.accountId, c);
    }
  }

  lemma ColonFreeSuffix(c: string, d: string)
    requires EndsWith("::" + c, "::" + d) && ':' !in c
    ensures c == d
  {
    var s, t, n := "::" + c, "::" + d, |c| - |d|;
    assert s[n + 1] == t[1] == ':';
    SamePrefixed(c, d);
  }

  /** Currency codes without a colon are never confusable. */
  lemma NoColonIsUnconfusable(C: set<string>)
    requires forall c :: c in C ==> ':' !in c
    ensures Unconfusable(C)
  {
    forall c, d | c in C && d in C && EndsWith("::" + c, "::" + d)
      ensures c == d
    {
      ColonFreeSuffix(c, d);
    }
  }

  // ---------------------------------------------------------------- confusable currencies fail

  ghost predicate TrialSucceeds(st: State) {
    WellFormed(st) && TrialBalanced(Lines(st))
  }

  /** A two-entry transfer of n whole units. */
  function Leg(id: string, account: string, side: Side, n: nat, currency: string, correlation: string): Entry {
    Entry(id, account, side, Money(FormatAmount(n, 0), currency, 0), "", correlation, None, None)
  }

  lemma LegIsSound(accounts: seq<Account>, e: Entry, n: nat)
    requires e.money.amount == FormatAmount(n, 0) && e.money.decimals == 0 && n > 0
    requires Trim(e.money.currency) != "" && HasAccount(accounts, e.accountId)
    ensures SoundEntry(accounts, e) && Units(e) == n
  {
    ParseFormat(n, 0);
  }

  lemma TransferAccepted(st: State, e: Entry, f: Entry)
    requires SoundEntry(st.accounts, e) && SoundEntry(st.accounts, f) && FreshIds(st.entries, [e, f])
    requires e.side == Debit && f.side == Credit && Units(e) == Units(f)
    requires e.money.currency == f.money.currency && e.correlationId == f.correlationId
    ensures Append(st, [e, f]) == Ok(st.(entries := st.entries + [e, f]))
  {
    assert Balanced([e, f]) by {
      forall c
        ensures Sum([e, f], InCurrency(c), Debit) == Sum([e, f], InCurrency(c), Credit)
      {
        SumTwo(e, f, InCurrency(c), Debit);
        SumTwo(e, f, InCurrency(c), Credit);
      }
    }
    AppendAcceptsExactly(st, [e, f]);
  }

  function ConfusedAccounts(x: string): seq<Account> {
    [Account("A", Asset, "", ""), Account("B", Asset, "", ""), Account("A" + x, Asset, "", "")]
  }

  lemma ConfusedAccountsRun(x: string) returns (ops: seq<Op>)
    requires x != ""
    ensures Run(ops) == State(ConfusedAccounts(x), [])
  {
    var a, b, c := ConfusedAccounts(x)[0], ConfusedAccounts(x)[1], ConfusedAccounts(x)[2];
    assert c.id[0] == 'A' && |c.id| > 1;
    RunSnoc([], OpRegister(a));
    assert Run([] + [OpRegister(a)]) == State([a], []);
    RunSnoc([] + [OpRegister(a)], OpRegister(b));
    assert Run([] + [OpRegister(a)] + [OpRegister(b)]) == State([a, b], []);
    RunSnoc([] + [OpRegister(a)] + [OpRegister(b)], OpRegister(c));
    ops := [] + [OpRegister(a)] + [OpRegister(b)] + [OpRegister(c)];
  }

  /** The collision: the accumulator of the first entry also receives the third, in another currency. */
  lemma ConfusedRun(x: string, e0: Entry, e1: Entry, e2: Entry, e3: Entry) returns (ops: seq<Op>)
    requires x != "" && Trim(e0.money.currency) != "" && Trim(e2.money.currency) != ""
    requires e0 == Leg("1", "A", Debit, 2, e0.money.currency, "t")
    requires e1 == Leg("2", "B", Credit, 2, e0.money.currency, "t")
    requires e2 == Leg("3", "A" + x, Debit, 1, e2.money.currency, "u")
    requires e3 == Leg("4", "B", Credit, 1, e2.money.currency, "u")
    ensures Run(ops) == State(ConfusedAccounts(x), [e0, e1, e2, e3])
    ensures Units(e0) == Units(e1) == 2 && Units(e2) == Units(e3) == 1
  {
    hide Units, Rejection, Apply, Run, Append;
    var accounts := ConfusedAccounts(x);
    assert accounts[0].id == "A" && accounts[1].id == "B" && accounts[2].id == "A" + x;
    LegIsSound(accounts, e0, 2);
    LegIsSound(accounts, e1, 2);
    LegIsSound(accounts, e2, 1);
    LegIsSound(accounts, e3, 1);
    var ops0 := ConfusedAccountsRun(x);
    TransferAccepted(State(accounts, []), e0, e1);
    RunAppend(ops0, [e0, e1]);
    assert [] + [e0, e1] == [e0, e1];
    var ops1 := ops0 + [OpAppend([e0, e1])];
    TransferAccepted(State(accounts, [e0, e1]), e2, e3);
    RunAppend(ops1, [e2, e3]);
    assert [e0, e1] + [e2, e3] == [e0, e1, e2, e3];
    ops := ops1 + [OpAppend([e2, e3])];
  }

  lemma {:induction false} ThreeLines(l0: Line, l1: Line, l2: Line, c: string)
    ensures Column([l0, l1, l2], c, Debit) - Column([l0, l1, l2], c, Credit)
         == LineNet(l0, c) + LineNet(l1, c) + LineNet(l2, c)
  {
    hide ColumnOf;
    assert [l0, l1, l2][..2] == [l0, l1] && [l0, l1][..1] == [l0] && [l0][..0] == [];
    forall side
      ensures Column([l0, l1, l2], c, side) == InColumn(l0, c, side) + InColumn(l1, c, side) + InColumn(l2, c, side)
    {
      assert Column([l0], c, side) == InColumn(l0, c, side);
      assert Column([l0, l1], c, side) == Column([l0], c, side) + InColumn(l1, c, side);
    }
  }

  lemma NetOfTwo(e: Entry, f: Entry)
    ensures Net([e], Everything) == Part(e, Everything, Debit) - Part(e, Everything, Credit)
    ensures Net([e, f], Everything)
         == Part(e, Everything, Debit) - Part(e, Everything, Credit) + Part(f, Everything, Debit) - Part(f, Everything, Credit)
  {
    SumTwo(e, f, Everything, Debit);
    SumTwo(e, f, Everything, Credit);
  }

  lemma NetOfConfused(e0: Entry, e1: Entry, e2: Entry)
    requires e0.side == e2.side == Debit && e1.side == Credit
    ensures Net([e0, e2], Everything) == Units(e0) + Units(e2) && Net([e1], Everything) == -Units(e1)
  {
    hide Units, Net;
    NetOfTwo(e0, e2);
    NetOfTwo(e1, e1);
  }

  lemma ConfusedLines(st: State, e0: Entry, e1: Entry, e2: Entry, e3: Entry) returns (lines: seq<Line>)
    requires WellFormed(st) && st.entries == [e0, e1, e2, e3]
    requires ByBalance(e0) == ByBalance(e2) && ByBalance(e0) != ByBalance(e1) && ByBalance(e0) != ByBalance(e3)
    requires ByBalance(e1) != ByBalance(e3)
    ensures lines == Lines(st) && |lines| == 3
    ensures SoundGroup(st.accounts, [e0, e2]) && lines[0] == LineOf(st.accounts, [e0, e2])
    ensures SoundGroup(st.accounts, [e1]) && lines[1] == LineOf(st.accounts, [e1])
    ensures SoundGroup(st.accounts, [e3]) && lines[2] == LineOf(st.accounts, [e3])
  {
    hide LineOf, SoundEntry, SoundGroup, Balanced;
    KeysAreSound(st);
    GroupsOfFour(e0, e1, e2, e3, ByBalance);
    var ks := Keys(st.entries, ByBalance);
    assert Select(st.entries, ByBalance, ks[0]) == [e0, e2];
    assert Select(st.entries, ByBalance, ks[1]) == [e1] && Select(st.entries, ByBalance, ks[2]) == [e3];
    lines := Lines(st);
  }

  lemma ConfusedFails(st: State, e0: Entry, e1: Entry, e2: Entry, e3: Entry, c: string)
    requires WellFormed(st) && st.entries == [e0, e1, e2, e3]
    requires ByBalance(e0) == ByBalance(e2) && ByBalance(e0) != ByBalance(e1) && ByBalance(e0) != ByBalance(e3)
    requires ByBalance(e1) != ByBalance(e3)
    requires e0.money.currency == e1.money.currency == c != e3.money.currency
    requires e0.side == e2.side == Debit && e1.side == Credit && Units(e0) == Units(e1) && Units(e2) > 0
    ensures !TrialBalanced(Lines(st))
  {
    hide Units, ColumnOf, Net, WellFormed, Lines, SoundEntry, Column, ByBalance, Columns, FormatAmount;
    var lines := ConfusedLines(st, e0, e1, e2, e3);
    ThreeLines(lines[0], lines[1], lines[2], c);
    assert lines == [lines[0], lines[1], lines[2]];
    LineKeepsNet(st.accounts, [e0, e2]);
    LineKeepsNet(st.accounts, [e1]);
    NetOfConfused(e0, e1, e2);
    assert Column(lines, c, Debit) != Column(lines, c, Credit);
  }

  lemma ConfusedKeys(x: string, c: string, d: string)
    requires c != d && "::" + c == x + ("::" + d)
    ensures BalanceKey("A", c) == BalanceKey("A" + x, d)
    ensures BalanceKey("A", c) != BalanceKey("B", c) && BalanceKey("A", c) != BalanceKey("B", d)
    ensures BalanceKey("B", c) != BalanceKey("B", d)
  {
    assert "A" + (x + ("::" + d)) == ("A" + x) + ("::" + d);
    assert BalanceKey("A", c)[0] == 'A' && BalanceKey("B", c)[0] == BalanceKey("B", d)[0] == 'B';
    assert BalanceKey("B", c)[3..] == c && BalanceKey("B", d)[3..] == d;
  }

  lemma ConfusedCurrenciesFail(c: string, d: string) returns (ops: seq<Op>)
    requires c != d && Trim(c) != "" && Trim(d) != "" && EndsWith("::" + c, "::" + d)
    ensures CurrenciesIn(Run(ops).entries, {c, d}) && !TrialSucceeds(Run(ops))
  {
    hide FormatAmount, Units, TrialBalanced, Lines, BalanceKey, WellFormed, Run, Trim, ConfusedAccounts;
    var x := ConfusedPrefix(c, d);
    var e0, e1 := Leg("1", "A", Debit, 2, c, "t"), Leg("2", "B", Credit, 2, c, "t");
    var e2, e3 := Leg("3", "A" + x, Debit, 1, d, "u"), Leg("4", "B", Credit, 1, d, "u");
    ops := ConfusedRun(x, e0, e1, e2, e3);
    RunWellFormed(ops);
    ConfusedKeys(x, c, d);
    ConfusedFails(Run(ops), e0, e1, e2, e3, c);
  }

  /** The exact condition: ledgers over the currencies of C never fail their trial balance if and only
      if C is unconfusable. */
  lemma TrialBalanceNeverThrowsExactly(C: set<string>)
    ensures Unconfusable(C) <==> forall ops :: CurrenciesIn(Run(ops).entries, C) ==> TrialSucceeds(Run(ops))
  {
    if Unconfusable(C) {
      forall ops | CurrenciesIn(Run(ops).entries, C)
        ensures TrialSucceeds(Run(ops))
      {
        RunWellFormed(ops);
        UnconfusableIsUnambiguous(Run(ops), C);
        UnambiguousBalances(Run(ops));
      }
    } else {
      var c, d :| c in C && d in C && c != d && Trim(c) != "" && Trim(d) != "" && EndsWith("::" + c, "::" + d);
      var ops := ConfusedCurrenciesFail(c, d);
      assert CurrenciesIn(Run(ops).entries, C);
    }
  }

  lemma ConfusedPrefix(c: string, d: string) returns (x: string)
    requires c != d && EndsWith("::" + c, "::" + d)
    ensures x != "" && "::" + c == x + ("::" + d)
  {
    var s, t := "::" + c, "::" + d;
    x := s[..|s| - |t|];
    assert s == x + t;
    if |c| == |d| {
      SamePrefixed(c, d);
    }
  }
}
