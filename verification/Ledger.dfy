/** The ledger as the object it is: append validates in loops before it pushes, the balance
    calculator accumulates in insertion-ordered maps, and fromSnapshot replays grouped entries
    (packages/ledger/src/ledger.ts, packages/ledger/src/balance-calculator.ts). */
module Ledgers {
  import opened Wrappers
  import opened MoneyMath
  import opened Grouping
  import opened LedgerModel
  import opened TrialBalance

  datatype Transaction = Transaction(correlationId: string, entries: seq<Entry>, timestamp: string, description: Option<string>)

  datatype Receipt = Receipt(correlationId: string, entryCount: nat, timestamp: string)

  // ---------------------------------------------------------------- balance calculator

  datatype Accumulator = Accumulator(accountId: string, currency: string, decimals: int, totalDebits: int, totalCredits: int)

  function AccumulatorOf(group: seq<Entry>): Accumulator
    requires group != []
  {
    var e := group[0];
    Accumulator(e.accountId, e.money.currency, e.money.decimals, Sum(group, Everything, Debit), Sum(group, Everything, Credit))
  }

  ghost predicate Accumulates(es: seq<Entry>, order: seq<string>, accs: map<string, Accumulator>) {
    && order == Keys(es, ByBalance)
    && (forall k :: k in accs <==> k in order)
    && (forall k :: k in accs ==> Select(es, ByBalance, k) != [] && accs[k] == AccumulatorOf(Select(es, ByBalance, k)))
  }

  function Fresh(e: Entry): Accumulator {
    Accumulator(e.accountId, e.money.currency, e.money.decimals, 0, 0)
  }

  function Grown(acc: Accumulator, e: Entry): Accumulator {
    if e.side == Debit then acc.(totalDebits := acc.totalDebits + Units(e))
    else acc.(totalCredits := acc.totalCredits + Units(e))
  }

  lemma GrownGroup(g: seq<Entry>, e: Entry)
    ensures AccumulatorOf(g + [e]) == Grown(if g == [] then Fresh(e) else AccumulatorOf(g), e)
  {
    hide Units;
    SumSnoc(g, e, Everything, Debit);
    SumSnoc(g, e, Everything, Credit);
  }

  lemma AccumulatesNothing()
    ensures Accumulates([], [], map[])
  {
  }

  lemma AccumulateOne(es: seq<Entry>, e: Entry, order: seq<string>, accs: map<string, Accumulator>)
    requires Accumulates(es, order, accs)
    ensures var k := ByBalance(e);
            Accumulates(es + [e], if k in accs then order else order + [k],
                        accs[k := Grown(if k in accs then accs[k] else Fresh(e), e)])
  {
    hide Grown, Fresh, AccumulatorOf, Select, Keys;
    var k := ByBalance(e);
    var accs' := accs[k := Grown(if k in accs then accs[k] else Fresh(e), e)];
    SnocKeys(es, e, ByBalance);
    SelectKeyed(es, ByBalance, k);
    GrownGroup(Select(es, ByBalance, k), e);
    forall j | j in accs'
      ensures Select(es + [e], ByBalance, j) != [] && accs'[j] == AccumulatorOf(Select(es + [e], ByBalance, j))
    {
      SnocSelect(es, e, ByBalance, j);
    }
  }

  /** buildAccumulators: one accumulator per joined key, in order of first appearance. Fails on the
      first amount that does not parse. */
  method BuildAccumulators(entries: seq<Entry>) returns (order: seq<string>, accs: map<string, Accumulator>, failed: bool)
    ensures failed <==> exists i :: 0 <= i < |entries| && Scaled(entries[i].money).Err?
    ensures !failed ==> Accumulates(entries, order, accs)
  {
    hide ParseAmount, Accumulates, Keys, Select, Sum, AccumulatorOf;
    order, accs, failed := [], map[], false;
    AccumulatesNothing();
    assert entries[..0] == [];
    for i := 0 to |entries|
      invariant forall j :: 0 <= j < i ==> Scaled(entries[j].money).Ok?
      invariant Accumulates(entries[..i], order, accs)
    {
      var e := entries[i];
      var k := BalanceKey(e.accountId, e.money.currency);
      var acc := if k in accs then accs[k] else Accumulator(e.accountId, e.money.currency, e.money.decimals, 0, 0);
      var amount := ParseAmount(e.money.amount, e.money.decimals);
      if amount.Err? {
        failed := true;
        return;
      }
      if e.side == Debit {
        acc := acc.(totalDebits := acc.totalDebits + amount.value);
      } else {
        acc := acc.(totalCredits := acc.totalCredits + amount.value);
      }
      AccumulateOne(entries[..i], e, order, accs);
      assert entries[..i + 1] == entries[..i] + [e];
      if k !in accs {
        order := order + [k];
      }
      accs := accs[k := acc];
    }
    assert entries[..|entries|] == entries;
  }

  /** The line computeTrialBalance pushes for one accumulator. */
  function LineFrom(accounts: seq<Account>, acc: Accumulator): Line
    requires HasAccount(accounts, acc.accountId) && acc.decimals >= 0
  {
    var kind := KindOf(accounts, acc.accountId);
    var columns := Columns(kind, acc.totalDebits - acc.totalCredits);
    Line(acc.accountId, kind, acc.currency, acc.decimals,
         FormatAmount(columns.0, acc.decimals), FormatAmount(columns.1, acc.decimals))
  }

  lemma LineFromGroup(accounts: seq<Account>, group: seq<Entry>)
    requires SoundGroup(accounts, group)
    ensures LineFrom(accounts, AccumulatorOf(group)) == LineOf(accounts, group)
  {
    hide FormatAmount, ParseAmount;
  }

  lemma LineNetColumns(accounts: seq<Account>, acc: Accumulator)
    requires HasAccount(accounts, acc.accountId) && acc.decimals >= 0
    ensures var line, columns := LineFrom(accounts, acc), Columns(KindOf(accounts, acc.accountId), acc.totalDebits - acc.totalCredits);
            ColumnOf(line, Debit) == columns.0 && ColumnOf(line, Credit) == columns.1
  {
    hide FormatAmount, ParseAmount, KindOf;
    var columns := Columns(KindOf(accounts, acc.accountId), acc.totalDebits - acc.totalCredits);
    ParseFormat(columns.0, acc.decimals);
    ParseFormat(columns.1, acc.decimals);
  }

  /** Running column totals per currency, as both calculators keep them in a Map. */
  ghost predicate TotalsOf(lines: seq<Line>, totals: map<string, (int, int)>) {
    forall c :: (if c in totals then totals[c] else (0, 0)) == (Column(lines, c, Debit), Column(lines, c, Credit))
  }

  lemma TotalsGrow(lines: seq<Line>, line: Line, totals: map<string, (int, int)>)
    requires TotalsOf(lines, totals)
    ensures var t := if line.currency in totals then totals[line.currency] else (0, 0);
            TotalsOf(lines + [line], totals[line.currency := (t.0 + ColumnOf(line, Debit), t.1 + ColumnOf(line, Credit))])
  {
    hide ColumnOf;
    assert (lines + [line])[..|lines|] == lines;
  }

  lemma TotalsNothing()
    ensures TotalsOf([], map[])
  {
  }

  lemma TotalsAgree(lines: seq<Line>, totals: map<string, (int, int)>)
    requires TotalsOf(lines, totals)
    ensures TrialBalanced(lines) <==> forall c :: c in totals ==> totals[c].0 == totals[c].1
  {
    hide Column;
  }

  datatype Report = Report(lines: seq<Line>, balanced: bool)

  ghost predicate AllParse(entries: seq<Entry>) {
    forall i :: 0 <= i < |entries| ==> Scaled(entries[i].money).Ok?
  }

  lemma GroupParses(entries: seq<Entry>, k: string)
    requires AllParse(entries) && Select(entries, ByBalance, k) != []
    ensures Scaled(Select(entries, ByBalance, k)[0].money).Ok?
  {
    SelectKeyed(entries, ByBalance, k);
    assert Select(entries, ByBalance, k)[0] in entries;
  }

  /** computeTrialBalance: the lines, and whether the raw column totals agree. Throws on an amount
      that does not parse and on an accumulator of an unknown account. */
  method ComputeTrialBalance(entries: seq<Entry>, accounts: seq<Account>) returns (r: Result<Report, LedgerError>)
    ensures !AllParse(entries) ==> r == Err(InvalidAmount)
    ensures AllParse(entries) && !SoundKeys(State(accounts, entries), Keys(entries, ByBalance)) ==> r == Err(UnknownAccount)
    ensures r.Ok? <==> AllParse(entries) && SoundKeys(State(accounts, entries), Keys(entries, ByBalance))
    ensures r.Ok? ==>
              && r.value.lines == LinesFor(State(accounts, entries), Keys(entries, ByBalance))
              && (r.value.balanced <==> TrialBalanced(r.value.lines))
  {
    hide ParseAmount, FormatAmount, Keys, Select, Sum, Columns, KindOf, TotalsOf, TrialBalanced, ColumnOf, HasAccount;
    var order, accs, failed := BuildAccumulators(entries);
    if failed {
      return Err(InvalidAmount);
    }
    var totals: map<string, (int, int)> := map[];
    var lines: seq<Line> := [];
    TotalsNothing();
    for i := 0 to |order|
      invariant |lines| == i
      invariant forall j :: 0 <= j < i ==>
                  && SoundGroup(accounts, Select(entries, ByBalance, order[j]))
                  && lines[j] == LineOf(accounts, Select(entries, ByBalance, order[j]))
      invariant TotalsOf(lines, totals)
    {
      assert order[i] in order;
      var acc := accs[order[i]];
      GroupParses(entries, order[i]);
      if !HasAccount(accounts, acc.accountId) {
        assert !SoundGroup(accounts, Select(entries, ByBalance, order[i]));
        return Err(UnknownAccount);
      }
      LineFromGroup(accounts, Select(entries, ByBalance, order[i]));
      LineNetColumns(accounts, acc);
      var kind := KindOf(accounts, acc.accountId);
      var columns := Columns(kind, acc.totalDebits - acc.totalCredits);
      var line := Line(acc.accountId, kind, acc.currency, acc.decimals,
                       FormatAmount(columns.0, acc.decimals), FormatAmount(columns.1, acc.decimals));
      TotalsGrow(lines, line, totals);
      lines := lines + [line];
      var t := if acc.currency in totals then totals[acc.currency] else (0, 0);
      totals := totals[acc.currency := (t.0 + columns.0, t.1 + columns.1)];
    }
    TotalsAgree(lines, totals);
    assert lines == LinesFor(State(accounts, entries), order);
    r := Ok(Report(lines, forall c | c in totals :: totals[c].0 == totals[c].1));
  }

  /** The columns of a line read back. */
  predicate ColumnsParse(line: Line) {
    ParseAmount(line.debit, line.decimals).Ok? && ParseAmount(line.credit, line.decimals).Ok?
  }

  lemma OnlyInvalidAmount(s: string, decimals: int)
    ensures ParseAmount(s, decimals).Err? ==> ParseAmount(s, decimals) == Err(InvalidAmount)
  {
  }

  /** assertTrialBalanced: recomputes both columns from the formatted lines. */
  method AssertTrialBalanced(lines: seq<Line>) returns (r: Result<(), LedgerError>)
    ensures r == if exists i :: 0 <= i < |lines| && !ColumnsParse(lines[i]) then Err(InvalidAmount)
                 else if TrialBalanced(lines) then Ok(())
                 else Err(UnbalancedTransaction)
  {
    hide ParseAmount, TotalsOf, TrialBalanced, Column;
    var totals: map<string, (int, int)> := map[];
    TotalsNothing();
    for i := 0 to |lines|
      invariant TotalsOf(lines[..i], totals)
      invariant forall j :: 0 <= j < i ==> ColumnsParse(lines[j])
    {
      var line := lines[i];
      var t := if line.currency in totals then totals[line.currency] else (0, 0);
      var debit, credit := ParseAmount(line.debit, line.decimals), ParseAmount(line.credit, line.decimals);
      OnlyInvalidAmount(line.debit, line.decimals);
      OnlyInvalidAmount(line.credit, line.decimals);
      if debit.Err? { return Err(debit.error); }
      if credit.Err? { return Err(credit.error); }
      TotalsGrow(lines[..i], line, totals);
      assert lines[..i + 1] == lines[..i] + [line];
      totals := totals[line.currency := (t.0 + debit.value, t.1 + credit.value)];
    }
    assert lines[..|lines|] == lines;
    TotalsAgree(lines, totals);
    r := if forall c | c in totals :: totals[c].0 == totals[c].1 then Ok(()) else Err(UnbalancedTransaction);
  }

  // ---------------------------------------------------------------- the ledger

  class Ledger {
    var accounts: seq<Account>            // the registry's Map, in insertion order
    var entries: seq<Entry>
    var entryIds: set<string>
    var transactions: seq<Transaction>

    ghost predicate Valid()
      reads this
    {
      && WellFormed(Contents())
      && HoldsIds(entryIds, entries)
    }

    ghost function Contents(): State
      reads this
    {
      State(accounts, entries)
    }

    constructor ()
      ensures Valid() && Contents() == State([], []) && transactions == []
    {
      accounts, entries, entryIds, transactions := [], [], {}, [];
    }

    method RegisterAccount(ref: Account) returns (r: Result<Account, LedgerError>)
      requires Valid()
      modifies this`accounts
      ensures Valid()
      ensures match LedgerModel.RegisterAccount(old(Contents()), ref)
              case Ok(st) => r == Ok(ref) && Contents() == st
              case Err(e) => r == Err(e) && Contents() == old(Contents())
    {
      if HasAccount(accounts, ref.id) {
        return Err(DuplicateAccountId);
      }
      RegisterKeepsWellFormed(Contents(), ref);
      accounts := accounts + [ref];
      r := Ok(ref);
    }

    /** The seven validation loops, in order. */
    method Validate(batch: seq<Entry>) returns (error: Option<LedgerError>)
      requires Valid()
      ensures error == AppendError(Contents(), batch)
    {
      hide ParseAmount, Balanced, WellFormed, FreshIds, Rejection, Units, FirstFailure;
      if batch == [] {
        return Some(EmptyTransaction);
      }
      var mixed := MixedCorrelation(batch);
      if mixed {
        return Some(MixedCorrelationId);
      }
      var distinct := CheckIds(batch);
      if !distinct {
        return Some(DuplicateEntryId);
      }
      if exists i :: 0 <= i < |batch| && !HasAccount(accounts, batch[i].accountId) {
        return Some(UnknownAccount);
      }
      var invalid := CheckMoney(batch);
      if invalid.Some? {
        return invalid;
      }
      if exists i :: 0 <= i < |batch| && Units(batch[i]) <= 0 {
        return Some(InvalidAmount);
      }
      var balanced := AssertBalanced(batch);
      error := if balanced then None else Some(UnbalancedTransaction);
    }

    /** append: commits the entries, their ids and the transaction only when every rule passes. */
    method Append(batch: seq<Entry>, description: Option<string>) returns (r: Result<Receipt, LedgerError>)
      requires Valid()
      modifies this`entries, this`entryIds, this`transactions
      ensures Valid()
      ensures match AppendError(old(Contents()), batch)
              case Some(e) => r == Err(e) && Contents() == old(Contents()) && transactions == old(transactions)
              case None =>
                && r == Ok(Receipt(batch[0].correlationId, |batch|, batch[0].timestamp))
                && accounts == old(accounts) && entries == old(entries) + batch
                && transactions == old(transactions)
                                   + [Transaction(batch[0].correlationId, batch, batch[0].timestamp, description)]
    {
      hide WellFormed, HoldsIds, FreshIds, Balanced, HasAccount, Rejection, Units, FirstFailure;
      var error := Validate(batch);
      if error.Some? {
        return Err(error.value);
      }
      AppendKeepsWellFormed(Contents(), batch);
      ghost var before := entries;
      for i := 0 to |batch|
        invariant entries == before + batch[..i] && accounts == old(accounts) && transactions == old(transactions)
        invariant HoldsIds(entryIds, entries)
      {
        PushId(entries, batch[i], entryIds);
        entries := entries + [batch[i]];
        entryIds := entryIds + {batch[i].id};
      }
      assert batch[..|batch|] == batch;
      transactions := transactions + [Transaction(batch[0].correlationId, batch, batch[0].timestamp, description)];
      r := Ok(Receipt(batch[0].correlationId, |batch|, batch[0].timestamp));
    }

    method CheckIds(batch: seq<Entry>) returns (distinct: bool)
      requires Valid()
      ensures distinct <==> FreshIds(entries, batch)
    {
      var batchIds: set<string> := {};
      for i := 0 to |batch|
        invariant HoldsIds(batchIds, batch[..i])
        invariant FreshIds(entries, batch[..i])
      {
        var id := batch[i].id;
        NextId(entries, batch[..i], batch[i], entryIds, batchIds);
        assert batch[..i + 1] == batch[..i] + [batch[i]];
        if id in entryIds || id in batchIds {
          StaleIds(entries, batch, i + 1);
          return false;
        }
        batchIds := batchIds + {id};
      }
      assert batch[..|batch|] == batch;
      distinct := true;
    }

    /** getTrialBalance: fails closed when the columns of some currency differ. */
    method GetTrialBalance() returns (r: Result<Report, LedgerError>)
      requires Valid()
      ensures r == if TrialBalanced(Lines(Contents())) then Ok(Report(Lines(Contents()), true)) else Err(UnbalancedTransaction)
    {
      hide ParseAmount, FormatAmount, Keys, Select, TrialBalanced, Balanced, Sum;
      KeysAreSound(Contents());
      WellFormedParses(Contents());
      var report := ComputeTrialBalance(entries, accounts);
      assert report.value.lines == Lines(Contents());
      LinesParse(Contents());
      var checked := AssertTrialBalanced(report.value.lines);
      assert forall i :: 0 <= i < |report.value.lines| ==> ColumnsParse(report.value.lines[i]);
      r := if checked.Ok? then Ok(report.value) else Err(checked.error);
    }

    method Snapshot() returns (s: Snapshot)
      ensures s == TakeSnapshot(Contents())
    {
      s := LedgerModel.Snapshot.Snapshot(SUPPORTED_SNAPSHOT_VERSION, accounts, entries);
    }
  }

  ghost predicate HoldsIds(ids: set<string>, es: seq<Entry>) {
    forall id :: id in ids <==> exists i :: 0 <= i < |es| && es[i].id == id
  }

  lemma PushId(es: seq<Entry>, e: Entry, ids: set<string>)
    requires HoldsIds(ids, es)
    ensures HoldsIds(ids + {e.id}, es + [e])
  {
    forall id
      ensures id in ids + {e.id} <==> exists j :: 0 <= j < |es + [e]| && (es + [e])[j].id == id
    {
      if id in ids {
        var j :| 0 <= j < |es| && es[j].id == id;
        assert (es + [e])[j].id == id;
      } else if id == e.id {
        assert (es + [e])[|es|].id == id;
      }
    }
  }

  lemma NextId(es: seq<Entry>, before: seq<Entry>, e: Entry, ids: set<string>, batchIds: set<string>)
    requires HoldsIds(ids, es) && HoldsIds(batchIds, before) && FreshIds(es, before)
    ensures FreshIds(es, before + [e]) <==> e.id !in ids && e.id !in batchIds
    ensures HoldsIds(batchIds + {e.id}, before + [e])
  {
    PushId(before, e, batchIds);
    var b := before + [e];
    assert b[|before|] == e;
    if e.id in ids {
      var i :| 0 <= i < |es| && es[i].id == e.id;
      assert es[i].id == b[|before|].id;
    } else if e.id in batchIds {
      var i :| 0 <= i < |before| && before[i].id == e.id;
      assert b[i].id == b[|before|].id;
    }
  }

  lemma StaleIds(es: seq<Entry>, batch: seq<Entry>, n: nat)
    requires n <= |batch| && !FreshIds(es, batch[..n])
    ensures !FreshIds(es, batch)
  {
  }

  lemma WellFormedParses(st: State)
    requires WellFormed(st)
    ensures AllParse(st.entries)
  {
    forall i | 0 <= i < |st.entries|
      ensures Scaled(st.entries[i].money).Ok?
    {
      assert SoundEntry(st.accounts, st.entries[i]);
    }
  }

  lemma LinesParse(st: State)
    requires WellFormed(st)
    ensures var lines := Lines(st);
            forall i :: 0 <= i < |lines| ==>
              ParseAmount(lines[i].debit, lines[i].decimals).Ok? && ParseAmount(lines[i].credit, lines[i].decimals).Ok?
  {
    hide ParseAmount, FormatAmount, Keys, Select, Sum, Balanced;
    KeysAreSound(st);
    var lines, ks := Lines(st), Keys(st.entries, ByBalance);
    forall i | 0 <= i < |lines|
      ensures ParseAmount(lines[i].debit, lines[i].decimals).Ok? && ParseAmount(lines[i].credit, lines[i].decimals).Ok?
    {
      var g := Select(st.entries, ByBalance, ks[i]);
      assert lines[i] == LineOf(st.accounts, g);
      var columns := Columns(KindOf(st.accounts, g[0].accountId), Net(g, Everything));
      ParseFormat(columns.0, g[0].money.decimals);
      ParseFormat(columns.1, g[0].money.decimals);
    }
  }

  method MixedCorrelation(batch: seq<Entry>) returns (mixed: bool)
    requires batch != []
    ensures mixed <==> exists i :: 0 <= i < |batch| && batch[i].correlationId != batch[0].correlationId
  {
    for i := 0 to |batch|
      invariant forall j :: 0 <= j < i ==> batch[j].correlationId == batch[0].correlationId
    {
      if batch[i].correlationId != batch[0].correlationId {
        return true;
      }
    }
    mixed := false;
  }

  /** Rule 5: the error of the first entry that validateMoney rejects. */
  method CheckMoney(batch: seq<Entry>) returns (error: Option<LedgerError>)
    ensures error == FirstFailure(batch, Rejection)
  {
    hide ValidateMoney;
    for i := 0 to |batch|
      invariant FirstFailure(batch[..i], Rejection) == None
    {
      assert batch[..i + 1][..i] == batch[..i];
      match ValidateMoney(batch[i].money) {
        case Ok(_) =>
        case Err(e) =>
          FirstFailureStays(batch, i + 1, Rejection);
          return Some(e);
      }
    }
    assert batch[..|batch|] == batch;
    error := None;
  }

  lemma {:induction false} FirstFailureStays<T>(s: seq<T>, n: nat, check: T -> Option<LedgerError>)
    requires n <= |s| && FirstFailure(s[..n], check).Some?
    ensures FirstFailure(s, check) == FirstFailure(s[..n], check)
    decreases |s|
  {
    if n == |s| {
      assert s[..n] == s;
    } else {
      assert s[..|s| - 1][..n] == s[..n];
      FirstFailureStays(s[..|s| - 1], n, check);
    }
  }

  ghost predicate SumsOf(es: seq<Entry>, totals: map<string, (int, int)>) {
    forall c :: (if c in totals then totals[c] else (0, 0)) == (Sum(es, InCurrency(c), Debit), Sum(es, InCurrency(c), Credit))
  }

  lemma SumsGrow(es: seq<Entry>, e: Entry, totals: map<string, (int, int)>)
    requires SumsOf(es, totals)
    ensures var t := if e.money.currency in totals then totals[e.money.currency] else (0, 0);
            SumsOf(es + [e], totals[e.money.currency := if e.side == Debit then (t.0 + Units(e), t.1) else (t.0, t.1 + Units(e))])
  {
    hide Units, Sum;
    forall c, side {
      SumSnoc(es, e, InCurrency(c), side);
    }
  }

  lemma SumsAgree(es: seq<Entry>, totals: map<string, (int, int)>)
    requires SumsOf(es, totals)
    ensures Balanced(es) <==> forall c :: c in totals ==> totals[c].0 == totals[c].1
  {
    hide Sum;
  }

  /** _assertBalanced: debits equal credits per currency. */
  method AssertBalanced(batch: seq<Entry>) returns (balanced: bool)
    requires FirstFailure(batch, Rejection) == None
    ensures balanced <==> Balanced(batch)
  {
    hide Units, Rejection, FirstFailure, Sum, SumsOf, Balanced;
    var totals: map<string, (int, int)> := map[];
    SumsOfNothing();
    assert batch[..0] == [];
    for i := 0 to |batch|
      invariant SumsOf(batch[..i], totals)
    {
      var e := batch[i];
      var t := if e.money.currency in totals then totals[e.money.currency] else (0, 0);
      SumsGrow(batch[..i], e, totals);
      assert batch[..i + 1] == batch[..i] + [e];
      totals := totals[e.money.currency := if e.side == Debit then (t.0 + Units(e), t.1) else (t.0, t.1 + Units(e))];
    }
    assert batch[..|batch|] == batch;
    SumsAgree(batch, totals);
    balanced := forall c | c in totals :: totals[c].0 == totals[c].1;
  }

  lemma SumsOfNothing()
    ensures SumsOf([], map[])
  {
  }

  /** fromSnapshot: registers the accounts, groups the entries by correlation id in order of first
      appearance, and appends each group. */
  method FromSnapshot(s: Snapshot) returns (r: Result<Ledger, LedgerError>)
    ensures match Restore(s)
            case Ok(st) => r.Ok? && fresh(r.value) && r.value.Valid() && r.value.Contents() == st
            case Err(e) => r == Err(e)
  {
    hide WellFormed, AppendError;
    if s.version != SUPPORTED_SNAPSHOT_VERSION {
      return Err(UnsupportedSnapshotVersion);
    }
    var ledger := new Ledger();
    for i := 0 to |s.accounts|
      invariant fresh(ledger) && ledger.Valid()
      invariant RegisterAll(s.accounts[..i]) == Ok(ledger.Contents())
    {
      assert s.accounts[..i + 1][..i] == s.accounts[..i];
      var registered := ledger.RegisterAccount(s.accounts[i]);
      if registered.Err? {
        RegisterAllFails(s.accounts, i + 1);
        return Err(registered.error);
      }
    }
    assert s.accounts[..|s.accounts|] == s.accounts;
    ghost var registry := ledger.Contents();
    var order, groups := GroupEntries(s.entries);
    for i := 0 to |order|
      invariant fresh(ledger) && ledger.Valid()
      invariant AppendGroups(registry, s.entries, order[..i]) == Ok(ledger.Contents())
    {
      assert order[..i + 1][..i] == order[..i];
      assert order[i] in order;
      var appended := ledger.Append(groups[order[i]], None);
      if appended.Err? {
        AppendGroupsFails(registry, s.entries, order, i + 1);
        return Err(appended.error);
      }
    }
    assert order[..|order|] == order;
    r := Ok(ledger);
  }

  ghost predicate Grouped(es: seq<Entry>, order: seq<string>, groups: map<string, seq<Entry>>) {
    && order == Keys(es, ByCorrelation)
    && (forall k :: k in groups <==> k in order)
    && (forall k :: k in groups ==> groups[k] == Select(es, ByCorrelation, k))
  }

  lemma GroupOne(es: seq<Entry>, e: Entry, order: seq<string>, groups: map<string, seq<Entry>>)
    requires Grouped(es, order, groups)
    ensures var k := e.correlationId;
            Grouped(es + [e], if k in groups then order else order + [k],
                    groups[k := (if k in groups then groups[k] else []) + [e]])
  {
    hide Keys, Select;
    var k := e.correlationId;
    var groups' := groups[k := (if k in groups then groups[k] else []) + [e]];
    SnocKeys(es, e, ByCorrelation);
    SelectKeyed(es, ByCorrelation, k);
    forall j | j in groups'
      ensures groups'[j] == Select(es + [e], ByCorrelation, j)
    {
      SnocSelect(es, e, ByCorrelation, j);
    }
  }

  method GroupEntries(es: seq<Entry>) returns (order: seq<string>, groups: map<string, seq<Entry>>)
    ensures Grouped(es, order, groups)
  {
    hide Keys, Select;
    order, groups := [], map[];
    GroupedNothing();
    assert es[..0] == [];
    for i := 0 to |es|
      invariant Grouped(es[..i], order, groups)
    {
      var e := es[i];
      var k := e.correlationId;
      GroupOne(es[..i], e, order, groups);
      assert es[..i + 1] == es[..i] + [e];
      var group := if k in groups then groups[k] else [];
      if k !in groups {
        order := order + [k];
      }
      groups := groups[k := group + [e]];
    }
    assert es[..|es|] == es;
  }

  lemma GroupedNothing()
    ensures Grouped([], [], map[])
  {
  }

  lemma {:induction false} RegisterAllFails(accounts: seq<Account>, n: nat)
    requires n <= |accounts| && RegisterAll(accounts[..n]).Err?
    ensures RegisterAll(accounts) == RegisterAll(accounts[..n])
    decreases |accounts|
  {
    if n == |accounts| {
      assert accounts[..n] == accounts;
    } else {
      assert accounts[..|accounts| - 1][..n] == accounts[..n];
      RegisterAllFails(accounts[..|accounts| - 1], n);
    }
  }

  lemma {:induction false} AppendGroupsFails(st: State, es: seq<Entry>, ks: seq<string>, n: nat)
    requires n <= |ks| && AppendGroups(st, es, ks[..n]).Err?
    ensures AppendGroups(st, es, ks) == AppendGroups(st, es, ks[..n])
    decreases |ks|
  {
    hide AppendError;
    if n == |ks| {
      assert ks[..n] == ks;
    } else {
      assert ks[..|ks| - 1][..n] == ks[..n];
      AppendGroupsFails(st, es, ks[..|ks| - 1], n);
    }
  }
}
