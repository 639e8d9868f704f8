/** The double-entry ledger as a value: its entries, what append accepts, what every reachable ledger
    keeps, and what a snapshot restores (packages/ledger/src/ledger.ts). */
module LedgerModel {
  import opened Wrappers
  import opened MoneyMath
  import opened Grouping

  datatype Side = Debit | Credit

  datatype Entry = Entry(
    id: string, accountId: string, side: Side, money: Money, timestamp: string,
    correlationId: string, intentId: Option<string>, txHash: Option<string>)

  datatype AccountType = Asset | Expense | Liability | Income | Equity

  datatype Account = Account(id: string, kind: AccountType, name: string, createdAt: string)

  datatype State = State(accounts: seq<Account>, entries: seq<Entry>)

  predicate HasAccount(accounts: seq<Account>, id: string) {
    exists i :: 0 <= i < |accounts| && accounts[i].id == id
  }

  /** The scaled amount of an entry whose money parses. */
  function Units(e: Entry): int {
    if Scaled(e.money).Ok? then Scaled(e.money).value else 0
  }

  // ---------------------------------------------------------------- totals

  /** Which entries a total ranges over; None leaves a field open. */
  datatype Query = Query(account: Option<string>, currency: Option<string>, correlation: Option<string>) {
    predicate Matches(e: Entry) {
      && (account == None || account == Some(e.accountId))
      && (currency == None || currency == Some(e.money.currency))
      && (correlation == None || correlation == Some(e.correlationId))
    }
  }

  function InCurrency(c: string): Query {
    Query(None, Some(c), None)
  }

  /** The scaled total of one side over the matching entries. */
  function Sum(es: seq<Entry>, q: Query, side: Side): int {
    if es == [] then 0
    else
      Sum(es[..|es| - 1], q, side) + Part(es[|es| - 1], q, side)
  }

  function Part(e: Entry, q: Query, side: Side): int {
    if e.side == side && q.Matches(e) then Units(e) else 0
  }

  lemma SumSnoc(es: seq<Entry>, e: Entry, q: Query, side: Side)
    ensures Sum(es + [e], q, side) == Sum(es, q, side) + Part(e, q, side)
  {
    assert (es + [e])[..|es|] == es;
  }

  lemma SumTwo(e: Entry, f: Entry, q: Query, side: Side)
    ensures Sum([e], q, side) == Part(e, q, side)
    ensures Sum([e, f], q, side) == Part(e, q, side) + Part(f, q, side)
  {
    assert [e] == [] + [e] && [e, f] == [e] + [f];
    SumSnoc([], e, q, side);
    SumSnoc([e], f, q, side);
  }

  ghost predicate Balanced(es: seq<Entry>) {
    forall c :: Sum(es, InCurrency(c), Debit) == Sum(es, InCurrency(c), Credit)
  }

  lemma {:induction false} SumConcat(a: seq<Entry>, b: seq<Entry>, q: Query, side: Side)
    ensures Sum(a + b, q, side) == Sum(a, q, side) + Sum(b, q, side)
  {
    if b == [] {
      assert a + b == a;
    } else {
      assert (a + b)[..|a + b| - 1] == a + b[..|b| - 1];
      SumConcat(a, b[..|b| - 1], q, side);
    }
  }

  /** Totals do not depend on the order of the entries. */
  lemma {:induction false} SumPermuted(a: seq<Entry>, b: seq<Entry>, q: Query, side: Side)
    requires multiset(a) == multiset(b)
    ensures Sum(a, q, side) == Sum(b, q, side)
  {
    if a == [] {
      assert |multiset(b)| == 0;
    } else {
      var x, a' := a[|a| - 1], a[..|a| - 1];
      var j := Without(a, b);
      SumPermuted(a', b[..j] + b[j + 1..], q, side);
      SumAround(b, j, q, side);
    }
  }

  lemma SumAround(b: seq<Entry>, j: nat, q: Query, side: Side)
    requires j < |b|
    ensures Sum(b, q, side)
         == Sum(b[..j] + b[j + 1..], q, side) + Part(b[j], q, side)
  {
    var front, back := b[..j + 1], b[j + 1..];
    assert b == front + back && front[..j] == b[..j];
    SumConcat(front, back, q, side);
    SumConcat(b[..j], back, q, side);
  }

  /** Within entries of one correlation id, asking for it changes nothing; asking for another gives 0. */
  lemma {:induction false} SumCorrelated(es: seq<Entry>, q: Query, k: string, side: Side)
    requires forall i :: 0 <= i < |es| ==> es[i].correlationId == k
    requires q.correlation == None
    ensures Sum(es, q.(correlation := Some(k)), side) == Sum(es, q, side)
    ensures forall j :: j != k ==> Sum(es, q.(correlation := Some(j)), side) == 0
  {
    if es != [] {
      SumCorrelated(es[..|es| - 1], q, k, side);
    }
  }

  lemma {:induction false} SumOfSelected(es: seq<Entry>, q: Query, k: string, side: Side)
    requires q.correlation == None
    ensures Sum(Select(es, ByCorrelation, k), q, side) == Sum(es, q.(correlation := Some(k)), side)
  {
    hide Part;
    if es != [] {
      var init, e := es[..|es| - 1], es[|es| - 1];
      SumOfSelected(init, q, k, side);
      PartCorrelated(e, q, k, side);
      SumSnoc(Select(init, ByCorrelation, k), e, q, side);
    }
  }

  lemma PartCorrelated(e: Entry, q: Query, k: string, side: Side)
    requires q.correlation == None
    ensures Part(e, q.(correlation := Some(k)), side) == if e.correlationId == k then Part(e, q, side) else 0
  {
  }

  // ---------------------------------------------------------------- append

  ghost predicate FreshIds(entries: seq<Entry>, batch: seq<Entry>) {
    && (forall i, j :: 0 <= i < |entries| && 0 <= j < |batch| ==> entries[i].id != batch[j].id)
    && DistinctIds(batch)
  }

  ghost predicate DistinctIds(es: seq<Entry>) {
    forall i, j :: 0 <= i < j < |es| ==> es[i].id != es[j].id
  }

  function Rejection(e: Entry): Option<LedgerError> {
    match ValidateMoney(e.money) case Err(error) => Some(error) case Ok(_) => None
  }

  /** The first failure of a check along a list. */
  function FirstFailure<T>(s: seq<T>, check: T -> Option<LedgerError>): Option<LedgerError> {
    if s == [] then None
    else
      var first := FirstFailure(s[..|s| - 1], check);
      if first.Some? then first else check(s[|s| - 1])
  }

  /** The seven rules of append, in the order in which they are checked; None when all hold. */
  ghost function AppendError(st: State, batch: seq<Entry>): Option<LedgerError> {
    if batch == [] then Some(EmptyTransaction)
    else if exists i :: 0 <= i < |batch| && batch[i].correlationId != batch[0].correlationId then Some(MixedCorrelationId)
    else if !FreshIds(st.entries, batch) then Some(DuplicateEntryId)
    else if exists i :: 0 <= i < |batch| && !HasAccount(st.accounts, batch[i].accountId) then Some(UnknownAccount)
    else if FirstFailure(batch, Rejection).Some? then FirstFailure(batch, Rejection)
    else if exists i :: 0 <= i < |batch| && Units(batch[i]) <= 0 then Some(InvalidAmount)
    else if !Balanced(batch) then Some(UnbalancedTransaction)
    else None
  }

  ghost function Append(st: State, batch: seq<Entry>): Result<State, LedgerError> {
    match AppendError(st, batch)
    case Some(e) => Err(e)
    case None => Ok(st.(entries := st.entries + batch))
  }

  function RegisterAccount(st: State, a: Account): Result<State, LedgerError> {
    if HasAccount(st.accounts, a.id) then Err(DuplicateAccountId)
    else Ok(st.(accounts := st.accounts + [a]))
  }

  // ---------------------------------------------------------------- reachable ledgers

  datatype Op = OpRegister(account: Account) | OpAppend(batch: seq<Entry>)

  ghost function Apply(st: State, op: Op): State {
    var r := match op case OpRegister(a) => RegisterAccount(st, a) case OpAppend(b) => Append(st, b);
    if r.Ok? then r.value else st
  }

  /** The ledger after any calls of registerAccount and append; a refused call changes nothing. */
  ghost function Run(ops: seq<Op>): State {
    if ops == [] then State([], []) else Apply(Run(ops[..|ops| - 1]), ops[|ops| - 1])
  }

  lemma RunSnoc(ops: seq<Op>, op: Op)
    ensures Run(ops + [op]) == Apply(Run(ops), op)
  {
    assert (ops + [op])[..|ops|] == ops;
  }

  lemma RunAppend(ops: seq<Op>, batch: seq<Entry>)
    requires Append(Run(ops), batch).Ok?
    ensures Run(ops + [OpAppend(batch)]) == Append(Run(ops), batch).value
  {
    hide Append;
    RunSnoc(ops, OpAppend(batch));
  }

  predicate SoundEntry(accounts: seq<Account>, e: Entry) {
    HasAccount(accounts, e.accountId) && Rejection(e) == None && Units(e) > 0
  }

  ghost predicate DistinctAccounts(accounts: seq<Account>) {
    forall i, j :: 0 <= i < j < |accounts| ==> accounts[i].id != accounts[j].id
  }

  function Correlated(c: string, k: string): Query {
    Query(None, Some(c), Some(k))
  }

  /** What every reachable ledger keeps: in particular each correlation id balances in each currency. */
  ghost predicate WellFormed(st: State) {
    && DistinctAccounts(st.accounts)
    && DistinctIds(st.entries)
    && (forall i :: 0 <= i < |st.entries| ==> SoundEntry(st.accounts, st.entries[i]))
    && (forall c, k :: Sum(st.entries, Correlated(c, k), Debit) == Sum(st.entries, Correlated(c, k), Credit))
    && Balanced(st.entries)
  }

  lemma {:induction false} NoFailure<T>(s: seq<T>, check: T -> Option<LedgerError>)
    ensures FirstFailure(s, check) == None <==> forall i :: 0 <= i < |s| ==> check(s[i]) == None
  {
    if s != [] {
      NoFailure(s[..|s| - 1], check);
    }
  }

  /** An append is accepted exactly when its batch is non-empty, of one correlation id, with ids new to
      the ledger and to the batch, on registered accounts, with valid positive money, and balanced in
      every currency. */
  lemma AppendAcceptsExactly(st: State, batch: seq<Entry>)
    ensures Append(st, batch).Ok? <==>
              && batch != []
              && (forall i :: 0 <= i < |batch| ==> batch[i].correlationId == batch[0].correlationId)
              && FreshIds(st.entries, batch)
              && (forall i :: 0 <= i < |batch| ==> SoundEntry(st.accounts, batch[i]))
              && Balanced(batch)
  {
    hide Rejection, Units, FreshIds, Balanced, HasAccount;
    NoFailure(batch, Rejection);
  }

  /** The first entry of a batch whose money validateMoney refuses. */
  ghost predicate FirstRefused(batch: seq<Entry>, i: nat, error: LedgerError) {
    && i < |batch| && Rejection(batch[i]) == Some(error)
    && forall j :: 0 <= j < i ==> Rejection(batch[j]) == None
  }

  lemma {:induction false} FirstFailureIs(batch: seq<Entry>)
    ensures FirstFailure(batch, Rejection) == None <==> forall i :: 0 <= i < |batch| ==> Rejection(batch[i]) == None
    ensures FirstFailure(batch, Rejection).Some? ==> exists i: nat :: FirstRefused(batch, i, FirstFailure(batch, Rejection).value)
  {
    hide ValidateMoney;
    NoFailure(batch, Rejection);
    if batch != [] {
      var n := |batch| - 1;
      FirstFailureIs(batch[..n]);
      NoFailure(batch[..n], Rejection);
      if FirstFailure(batch[..n], Rejection).Some? {
        var i: nat :| FirstRefused(batch[..n], i, FirstFailure(batch[..n], Rejection).value);
        assert FirstRefused(batch, i, FirstFailure(batch[..n], Rejection).value);
      } else if FirstFailure(batch, Rejection).Some? {
        assert FirstRefused(batch, n, FirstFailure(batch, Rejection).value);
      }
    }
  }

  ghost predicate OneCorrelation(batch: seq<Entry>) {
    forall i, j :: 0 <= i < j < |batch| ==> batch[i].correlationId == batch[j].correlationId
  }

  ghost predicate AllKnown(st: State, batch: seq<Entry>) {
    forall i :: 0 <= i < |batch| ==> HasAccount(st.accounts, batch[i].accountId)
  }

  ghost predicate AllValid(batch: seq<Entry>) {
    forall i :: 0 <= i < |batch| ==> ValidateMoney(batch[i].money).Ok?
  }

  ghost predicate AllPositive(batch: seq<Entry>) {
    forall i :: 0 <= i < |batch| ==> Units(batch[i]) > 0
  }

  /** Which error a refused batch reports: each of the rules only when all before it hold; of invalid money the
      first entry's. */
  lemma RefusalExactly(st: State, batch: seq<Entry>)
    ensures var error, shaped, known := AppendError(st, batch), batch != [] && OneCorrelation(batch), AllKnown(st, batch);
            && (error == Some(EmptyTransaction) <==> batch == [])
            && (error == Some(MixedCorrelationId) <==> !OneCorrelation(batch))
            && (error == Some(DuplicateEntryId) <==> shaped && !FreshIds(st.entries, batch))
            && (error == Some(UnknownAccount) <==> shaped && FreshIds(st.entries, batch) && !known)
            && (shaped && FreshIds(st.entries, batch) && known && !AllValid(batch) ==>
                  error.Some? && exists i: nat :: FirstRefused(batch, i, error.value))
            && (shaped && FreshIds(st.entries, batch) && known && AllValid(batch) && !AllPositive(batch) ==> error == Some(InvalidAmount))
            && (error == Some(UnbalancedTransaction) <==>
                  shaped && FreshIds(st.entries, batch) && known && AllValid(batch) && AllPositive(batch) && !Balanced(batch))
            && (error == None <==> shaped && FreshIds(st.entries, batch) && known && AllValid(batch) && AllPositive(batch) && Balanced(batch))
  {
    hide Balanced, FreshIds, FirstRefused, AllValid, OneCorrelation;
    FirstFailureIs(batch);
    ValidIs(batch);
    if batch == [] {
      assert OneCorrelation(batch) by { NoCorrelation(); }
    } else {
      OneCorrelationIs(batch);
    }
    RefusalKinds(batch);
  }

  lemma NoCorrelation()
    ensures OneCorrelation([])
  {
  }

  lemma OneCorrelationIs(batch: seq<Entry>)
    requires batch != []
    ensures OneCorrelation(batch) <==> forall i :: 0 <= i < |batch| ==> batch[i].correlationId == batch[0].correlationId
  {
  }

  lemma ValidIs(batch: seq<Entry>)
    ensures AllValid(batch) <==> FirstFailure(batch, Rejection) == None
  {
    hide Scaled, Trim;
    NoFailure(batch, Rejection);
  }

  lemma RefusalKinds(batch: seq<Entry>)
    ensures FirstFailure(batch, Rejection).Some? ==> FirstFailure(batch, Rejection).value in {InvalidMoney, InvalidAmount}
  {
    hide Trim;
    FirstFailureIs(batch);
    if FirstFailure(batch, Rejection).Some? {
      var i: nat :| FirstRefused(batch, i, FirstFailure(batch, Rejection).value);
      RejectionKinds(batch[i]);
    }
  }

  lemma RejectionKinds(e: Entry)
    ensures Rejection(e).Some? ==> Rejection(e).value in {InvalidMoney, InvalidAmount}
  {
  }

  lemma BalancedConcat(a: seq<Entry>, b: seq<Entry>)
    requires Balanced(a) && Balanced(b)
    ensures Balanced(a + b)
  {
    forall c
      ensures Sum(a + b, InCurrency(c), Debit) == Sum(a + b, InCurrency(c), Credit)
    {
      SumConcat(a, b, InCurrency(c), Debit);
      SumConcat(a, b, InCurrency(c), Credit);
    }
  }

  lemma CorrelatedConcat(a: seq<Entry>, b: seq<Entry>, k0: string, c: string, k: string)
    requires Sum(a, Correlated(c, k), Debit) == Sum(a, Correlated(c, k), Credit)
    requires Balanced(b) && forall i :: 0 <= i < |b| ==> b[i].correlationId == k0
    ensures Sum(a + b, Correlated(c, k), Debit) == Sum(a + b, Correlated(c, k), Credit)
  {
    SumConcat(a, b, Correlated(c, k), Debit);
    SumConcat(a, b, Correlated(c, k), Credit);
    SumCorrelated(b, InCurrency(c), k0, Debit);
    SumCorrelated(b, InCurrency(c), k0, Credit);
    assert Correlated(c, k) == InCurrency(c).(correlation := Some(k));
    assert Sum(b, InCurrency(c), Debit) == Sum(b, InCurrency(c), Credit);
  }

  lemma AppendKeepsWellFormed(st: State, batch: seq<Entry>)
    requires WellFormed(st) && Append(st, batch).Ok?
    ensures WellFormed(Append(st, batch).value)
  {
    AppendAcceptsExactly(st, batch);
    var st' := Append(st, batch).value;
    forall c, k
      ensures Sum(st'.entries, Correlated(c, k), Debit) == Sum(st'.entries, Correlated(c, k), Credit)
    {
      CorrelatedConcat(st.entries, batch, batch[0].correlationId, c, k);
    }
    BalancedConcat(st.entries, batch);
  }

  lemma RegisterKeepsWellFormed(st: State, a: Account)
    requires WellFormed(st) && RegisterAccount(st, a).Ok?
    ensures WellFormed(RegisterAccount(st, a).value)
  {
    var st' := RegisterAccount(st, a).value;
    forall i | 0 <= i < |st.entries|
      ensures SoundEntry(st'.accounts, st'.entries[i])
    {
      AccountStays(st.accounts, a, st.entries[i].accountId);
      assert SoundEntry(st.accounts, st.entries[i]);
    }
  }

  lemma AccountStays(accounts: seq<Account>, a: Account, id: string)
    requires HasAccount(accounts, id)
    ensures HasAccount(accounts + [a], id)
  {
    var i :| 0 <= i < |accounts| && accounts[i].id == id;
    assert (accounts + [a])[i].id == id;
  }

  /** The invariant over every run. */
  lemma {:induction false} RunWellFormed(ops: seq<Op>)
    ensures WellFormed(Run(ops))
  {
    if ops != [] {
      var st, op := Run(ops[..|ops| - 1]), ops[|ops| - 1];
      RunWellFormed(ops[..|ops| - 1]);
      match op
      case OpRegister(a) =>
        if RegisterAccount(st, a).Ok? {
          RegisterKeepsWellFormed(st, a);
        }
      case OpAppend(b) =>
        if Append(st, b).Ok? {
          AppendKeepsWellFormed(st, b);
        }
    }
  }

  // ---------------------------------------------------------------- snapshot and restore

  const SUPPORTED_SNAPSHOT_VERSION := 1

  datatype Snapshot = Snapshot(version: int, accounts: seq<Account>, entries: seq<Entry>)

  const ByCorrelation: Entry -> string := (e: Entry) => e.correlationId

  function TakeSnapshot(st: State): Snapshot {
    Snapshot(SUPPORTED_SNAPSHOT_VERSION, st.accounts, st.entries)
  }

  function RegisterAll(accounts: seq<Account>): Result<State, LedgerError> {
    if accounts == [] then Ok(State([], []))
    else
      var st :- RegisterAll(accounts[..|accounts| - 1]);
      RegisterAccount(st, accounts[|accounts| - 1])
  }

  /** Replays the groups of es for the correlation ids ks, each as one append. */
  ghost function AppendGroups(st: State, es: seq<Entry>, ks: seq<string>): Result<State, LedgerError> {
    if ks == [] then Ok(st)
    else
      var st' :- AppendGroups(st, es, ks[..|ks| - 1]);
      Append(st', Select(es, ByCorrelation, ks[|ks| - 1]))
  }

  /** fromSnapshot. */
  ghost function Restore(s: Snapshot): Result<State, LedgerError> {
    if s.version != SUPPORTED_SNAPSHOT_VERSION then Err(UnsupportedSnapshotVersion)
    else
      var st :- RegisterAll(s.accounts);
      AppendGroups(st, s.entries, Keys(s.entries, ByCorrelation))
  }

  lemma {:induction false} RegisterAllSucceeds(accounts: seq<Account>)
    requires DistinctAccounts(accounts)
    ensures RegisterAll(accounts) == Ok(State(accounts, []))
  {
    if accounts != [] {
      var init := accounts[..|accounts| - 1];
      RegisterAllSucceeds(init);
      assert accounts == init + [accounts[|accounts| - 1]];
    }
  }

  /** A group of a well-formed ledger is a batch that append accepts on its own. */
  lemma GroupIsSound(st: State, k: string)
    requires WellFormed(st)
    ensures var g := Select(st.entries, ByCorrelation, k);
            && Balanced(g) && DistinctIds(g)
            && (forall i :: 0 <= i < |g| ==> g[i].correlationId == k && SoundEntry(st.accounts, g[i]))
  {
    var g := Select(st.entries, ByCorrelation, k);
    SelectKeyed(st.entries, ByCorrelation, k);
    forall c
      ensures Sum(g, InCurrency(c), Debit) == Sum(g, InCurrency(c), Credit)
    {
      SumOfSelected(st.entries, InCurrency(c), k, Debit);
      SumOfSelected(st.entries, InCurrency(c), k, Credit);
      assert Correlated(c, k) == InCurrency(c).(correlation := Some(k));
    }
    SelectDistinct(st.entries, k);
    forall i | 0 <= i < |g|
      ensures g[i].correlationId == k && SoundEntry(st.accounts, g[i])
    {
      assert ByCorrelation(g[i]) == k;
      assert g[i] in st.entries;
    }
  }

  lemma {:induction false} SelectDistinct(es: seq<Entry>, k: string)
    requires DistinctIds(es)
    ensures DistinctIds(Select(es, ByCorrelation, k))
  {
    if es != [] {
      var init := es[..|es| - 1];
      SelectDistinct(init, k);
      SelectKeyed(init, ByCorrelation, k);
      var g := Select(init, ByCorrelation, k);
      forall i | 0 <= i < |g|
        ensures g[i].id != es[|es| - 1].id
      {
        assert g[i] in init;
      }
    }
  }

  lemma {:induction false} FlattenMembers(es: seq<Entry>, ks: seq<string>)
    ensures forall x :: x in Flatten(es, ByCorrelation, ks) ==> x in es && x.correlationId in ks
  {
    if ks != [] {
      var k := ks[|ks| - 1];
      FlattenMembers(es, ks[..|ks| - 1]);
      SelectKeyed(es, ByCorrelation, k);
      forall x | x in Flatten(es, ByCorrelation, ks)
        ensures x in es && x.correlationId in ks
      {
        if x in Select(es, ByCorrelation, k) {
          var i :| 0 <= i < |Select(es, ByCorrelation, k)| && Select(es, ByCorrelation, k)[i] == x;
          assert ByCorrelation(x) == k;
        }
      }
    }
  }

  lemma GroupsDisjoint(es: seq<Entry>, ks: seq<string>, k: string)
    requires DistinctIds(es) && k !in ks
    requires DistinctIds(Select(es, ByCorrelation, k))
    ensures FreshIds(Flatten(es, ByCorrelation, ks), Select(es, ByCorrelation, k))
  {
    var f, g := Flatten(es, ByCorrelation, ks), Select(es, ByCorrelation, k);
    FlattenMembers(es, ks);
    SelectKeyed(es, ByCorrelation, k);
    forall i, j | 0 <= i < |f| && 0 <= j < |g|
      ensures f[i].id != g[j].id
    {
      assert f[i] in f && g[j] in g;
      assert ByCorrelation(g[j]) == k;
      var a :| 0 <= a < |es| && es[a] == f[i];
      var b :| 0 <= b < |es| && es[b] == g[j];
      assert a != b;
    }
  }

  lemma {:induction false} AppendGroupsSucceeds(st: State, ks: seq<string>)
    requires WellFormed(st) && Distinct(ks)
    requires forall i :: 0 <= i < |ks| ==> ks[i] in Keys(st.entries, ByCorrelation)
    ensures AppendGroups(State(st.accounts, []), st.entries, ks)
         == Ok(State(st.accounts, Flatten(st.entries, ByCorrelation, ks)))
  {
    if ks != [] {
      var ks', k := ks[..|ks| - 1], ks[|ks| - 1];
      AppendGroupsSucceeds(st, ks');
      GroupIsSound(st, k);
      GroupsDisjoint(st.entries, ks', k);
      SelectKeyed(st.entries, ByCorrelation, k);
      AppendAcceptsExactly(State(st.accounts, Flatten(st.entries, ByCorrelation, ks')), Select(st.entries, ByCorrelation, k));
    }
  }

  lemma RestoreWellFormed(st: State)
    requires WellFormed(st)
    ensures Restore(TakeSnapshot(st)) == Ok(State(st.accounts, Regroup(st.entries, ByCorrelation)))
  {
    RegisterAllSucceeds(st.accounts);
    KeysAre(st.entries, ByCorrelation);
    AppendGroupsSucceeds(st, Keys(st.entries, ByCorrelation));
  }

  /** Restoring the snapshot of any reachable ledger succeeds, keeps the accounts in order, the entries
      as a multiset and every scaled total, also when several appends shared a correlation id; and a
      second round trip keeps the entry order too. */
  lemma RestoreRoundTrip(ops: seq<Op>)
    ensures Restore(TakeSnapshot(Run(ops))).Ok?
    ensures var st, back := Run(ops), Restore(TakeSnapshot(Run(ops))).value;
            && back.accounts == st.accounts
            && multiset(back.entries) == multiset(st.entries)
            && (forall q, side :: Sum(back.entries, q, side) == Sum(st.entries, q, side))
            && Restore(TakeSnapshot(back)) == Ok(back)
  {
    var st := Run(ops);
    RunWellFormed(ops);
    RestoreWellFormed(st);
    var back := Restore(TakeSnapshot(st)).value;
    RegroupPermutes(st.entries, ByCorrelation);
    forall q, side
      ensures Sum(back.entries, q, side) == Sum(st.entries, q, side)
    {
      SumPermuted(back.entries, st.entries, q, side);
    }
    RestoredWellFormed(st);
    RestoreWellFormed(back);
    RegroupTwice(st.entries, ByCorrelation);
  }

  lemma RestoredWellFormed(st: State)
    requires WellFormed(st)
    ensures WellFormed(State(st.accounts, Regroup(st.entries, ByCorrelation)))
  {
    var es := Regroup(st.entries, ByCorrelation);
    RegroupPermutes(st.entries, ByCorrelation);
    forall q, side
      ensures Sum(es, q, side) == Sum(st.entries, q, side)
    {
      SumPermuted(es, st.entries, q, side);
    }
    forall i | 0 <= i < |es|
      ensures SoundEntry(st.accounts, es[i])
    {
      assert es[i] in multiset(es);
    }
    KeysAre(st.entries, ByCorrelation);
    FlattenDistinct(st, Keys(st.entries, ByCorrelation));
  }

  lemma {:induction false} FlattenDistinct(st: State, ks: seq<string>)
    requires WellFormed(st) && Distinct(ks)
    ensures DistinctIds(Flatten(st.entries, ByCorrelation, ks))
  {
    if ks != [] {
      FlattenDistinct(st, ks[..|ks| - 1]);
      GroupIsSound(st, ks[|ks| - 1]);
      GroupsDisjoint(st.entries, ks[..|ks| - 1], ks[|ks| - 1]);
    }
  }
}
