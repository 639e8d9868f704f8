/** What a balanced batch means as amounts of money: the ledger compares totals in smallest units and does not
    look at the scale of an entry (packages/ledger/src/ledger.ts). */
module LedgerScales {
  import opened Wrappers
  import opened Decimal
  import opened MoneyMath
  import opened LedgerModel
  import Matching

  /** The exact amount of one side in a currency. */
  function ExactTotal(es: seq<Entry>, c: string, side: Side): real {
    if es == [] then 0.0 else ExactTotal(es[..|es| - 1], c, side) + ExactPart(es[|es| - 1], c, side)
  }

  function ExactPart(e: Entry, c: string, side: Side): real {
    if e.side == side && e.money.currency == c then Matching.Exact(e.money) else 0.0
  }

  /** Debits equal credits as rational numbers, in every currency. */
  ghost predicate ExactlyBalanced(es: seq<Entry>) {
    forall c :: ExactTotal(es, c, Debit) == ExactTotal(es, c, Credit)
  }

  /** Every amount is in one of these currencies at one of its scales. */
  ghost predicate MoneyIn(es: seq<Entry>, scales: set<(string, int)>) {
    forall i :: 0 <= i < |es| ==> (es[i].money.currency, es[i].money.decimals) in scales
  }

  /** A currency that validateMoney accepts has one scale; blank currencies and negative scales are refused
      anyway. */
  ghost predicate OneScale(scales: set<(string, int)>) {
    forall c, d, e :: (c, d) in scales && (c, e) in scales && Trim(c) != "" && d >= 0 && e >= 0 ==> d == e
  }

  lemma OneQuotient(x: real, a: real, p: real)
    requires p > 0.0 && x * p == a
    ensures x == a / p
  {
  }

  lemma QuotientsAdd(a: real, b: real, p: real)
    requires p > 0.0
    ensures a / p + b / p == (a + b) / p
  {
    var x, y := a / p, b / p;
    assert x * p == a && y * p == b;
    assert (x + y) * p == x * p + y * p;
    OneQuotient(x + y, a + b, p);
  }

  lemma RationalAdds(v: int, w: int, d: nat)
    ensures Matching.Rational(v, d) + Matching.Rational(w, d) == Matching.Rational(v + w, d)
    ensures Matching.Rational(0, d) == 0.0
  {
    hide Matching.Pow;
    Matching.PowPositive(d);
    var p := Matching.Pow(d);
    QuotientsAdd(v as real, w as real, p);
    OneQuotient(0.0, 0.0, p);
  }

  /** At one scale the exact total is the total in smallest units. */
  lemma {:induction false} ExactTotalIsSum(es: seq<Entry>, c: string, d: nat, side: Side)
    requires forall i :: 0 <= i < |es| && es[i].money.currency == c ==> es[i].money.decimals == d && Scaled(es[i].money).Ok?
    ensures ExactTotal(es, c, side) == Matching.Rational(Sum(es, InCurrency(c), side), d)
  {
    hide Matching.Rational, ParseAmount;
    RationalAdds(0, 0, d);
    if es != [] {
      var n := |es| - 1;
      ExactTotalIsSum(es[..n], c, d, side);
      RationalAdds(Sum(es[..n], InCurrency(c), side), Part(es[n], InCurrency(c), side), d);
    }
  }

  lemma SoundMoney(accounts: seq<Account>, e: Entry)
    requires SoundEntry(accounts, e)
    ensures Trim(e.money.currency) != "" && e.money.decimals >= 0 && Scaled(e.money).Ok?
  {
    hide HasAccount, ParseAmount, Trim;
  }

  lemma OneScaleBalances(st: State, batch: seq<Entry>, scales: set<(string, int)>)
    requires Append(st, batch).Ok? && MoneyIn(batch, scales) && OneScale(scales)
    ensures ExactlyBalanced(batch)
  {
    hide Append, SoundEntry, Sum, ExactTotal, Trim, Scaled;
    AppendAcceptsExactly(st, batch);
    forall c
      ensures ExactTotal(batch, c, Debit) == ExactTotal(batch, c, Credit)
    {
      var d: nat := if k :| 0 <= k < |batch| && batch[k].money.currency == c && batch[k].money.decimals >= 0
                    then batch[k].money.decimals else 0;
      forall i | 0 <= i < |batch| && batch[i].money.currency == c
        ensures batch[i].money.decimals == d && Scaled(batch[i].money).Ok?
      {
        SoundMoney(st.accounts, batch[i]);
        assert (c, batch[i].money.decimals) in scales && (c, d) in scales;
      }
      ExactTotalIsSum(batch, c, d, Debit);
      ExactTotalIsSum(batch, c, d, Credit);
    }
  }

  // ---------------------------------------------------------------- a mixed batch

  function OneUnit(id: string, account: string, side: Side, c: string, d: nat): Entry {
    Entry(id, account, side, Money(FormatAmount(1, d), c, d), "", "t", None, None)
  }

  lemma OneUnitIsSound(accounts: seq<Account>, e: Entry)
    requires e.money.decimals >= 0 && e.money.amount == FormatAmount(1, e.money.decimals)
    requires Trim(e.money.currency) != "" && HasAccount(accounts, e.accountId)
    ensures SoundEntry(accounts, e) && Units(e) == 1 && Matching.Exact(e.money) == Matching.Rational(1, e.money.decimals)
  {
    hide FormatAmount, Matching.Rational, HasAccount;
    ParseFormat(1, e.money.decimals);
  }

  lemma RunRegister(ops: seq<Op>, a: Account)
    requires !HasAccount(Run(ops).accounts, a.id)
    ensures Run(ops + [OpRegister(a)]) == Run(ops).(accounts := Run(ops).accounts + [a])
  {
    hide Run, HasAccount;
    RunSnoc(ops, OpRegister(a));
  }

  lemma TwoAccounts() returns (ops: seq<Op>)
    ensures Run(ops) == State([Account("A", Asset, "", ""), Account("B", Asset, "", "")], [])
  {
    hide Run;
    var a, b := Account("A", Asset, "", ""), Account("B", Asset, "", "");
    NoOps();
    RunRegister([], a);
    RunRegister([] + [OpRegister(a)], b);
    assert [] + [a] + [b] == [a, b];
    ops := [] + [OpRegister(a)] + [OpRegister(b)];
  }

  lemma NoOps()
    ensures Run([]) == State([], [])
  {
  }

  lemma {:induction false} Pow10Grows(d: nat, e: nat)
    requires d < e
    ensures Pow10(d) < Pow10(e)
  {
    if d + 1 < e {
      Pow10Grows(d, e - 1);
    }
  }

  lemma ScalesDiffer(d: nat, e: nat)
    requires d != e
    ensures Matching.Rational(1, d) != Matching.Rational(1, e)
  {
    hide Pow10;
    if d < e { Pow10Grows(d, e); } else { Pow10Grows(e, d); }
    var p, q := Matching.Pow(d), Matching.Pow(e);
    assert p != q && 1.0 / p * p == 1.0 && 1.0 / q * q == 1.0;
  }

  /** One smallest unit at one scale against one at another: accepted, and not balanced as money. */
  lemma MixedScalesAccepted(c: string, d: nat, e: nat) returns (ops: seq<Op>, batch: seq<Entry>)
    requires Trim(c) != "" && d != e
    ensures Append(Run(ops), batch).Ok? && MoneyIn(batch, {(c, d), (c, e)}) && !ExactlyBalanced(batch)
  {
    hide Trim, Run, FormatAmount, SoundEntry, Units, Matching.Exact, Matching.Rational, Append;
    ops := TwoAccounts();
    var st, f, g := Run(ops), OneUnit("1", "A", Debit, c, d), OneUnit("2", "B", Credit, c, e);
    batch := [f, g];
    assert st.accounts[0].id == "A" && st.accounts[1].id == "B";
    OneUnitIsSound(st.accounts, f);
    OneUnitIsSound(st.accounts, g);
    MixedBalanced(f, g);
    AppendAcceptsExactly(st, batch);
    ScalesDiffer(d, e);
    TwoTotals(f, g, c);
  }

  lemma MixedBalanced(f: Entry, g: Entry)
    requires f.side == Debit && g.side == Credit && f.money.currency == g.money.currency && Units(f) == Units(g)
    ensures Balanced([f, g])
  {
    hide Units;
    forall c
      ensures Sum([f, g], InCurrency(c), Debit) == Sum([f, g], InCurrency(c), Credit)
    {
      SumTwo(f, g, InCurrency(c), Debit);
      SumTwo(f, g, InCurrency(c), Credit);
    }
  }

  lemma TwoTotals(f: Entry, g: Entry, c: string)
    requires f.side == Debit && g.side == Credit && f.money.currency == g.money.currency == c
    ensures ExactTotal([f, g], c, Debit) == Matching.Exact(f.money) && ExactTotal([f, g], c, Credit) == Matching.Exact(g.money)
  {
    hide Matching.Exact;
    assert [f, g][..1] == [f] && [f][..0] == [];
    assert ExactTotal([f], c, Debit) == Matching.Exact(f.money) && ExactTotal([f], c, Credit) == 0.0;
  }

  /** Whatever has been recorded before, every batch that append accepts over these currencies and scales
      balances as money if and only if each currency is used at one scale. */
  lemma AcceptedBalancesExactly(scales: set<(string, int)>)
    ensures (forall ops, batch :: Append(Run(ops), batch).Ok? && MoneyIn(batch, scales) ==> ExactlyBalanced(batch)) <==> OneScale(scales)
  {
    hide Append, Run, Trim, ExactlyBalanced;
    if OneScale(scales) {
      forall ops, batch | Append(Run(ops), batch).Ok? && MoneyIn(batch, scales)
        ensures ExactlyBalanced(batch)
      {
        OneScaleBalances(Run(ops), batch, scales);
      }
    } else {
      var c, d, e :| (c, d) in scales && (c, e) in scales && Trim(c) != "" && d >= 0 && e >= 0 && d != e;
      var ops, batch := MixedScalesAccepted(c, d, e);
      assert MoneyIn(batch, scales);
    }
  }
}
