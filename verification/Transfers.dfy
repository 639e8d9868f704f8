/** Batches of debit-credit pairs, as the treasury writes them: balanced by construction, and accepted by the
    ledger unless an entry id is already taken (packages/treasury/src/distribution.ts,
    packages/treasury/src/funding.ts). */
module Transfers {
  import opened Wrappers
  import opened MoneyMath
  import opened LedgerModel
  import Ledgers

  /** One amount debited to one account and credited to another; the key starts both entry ids. */
  datatype Transfer = Transfer(key: string, debitAccount: string, creditAccount: string, money: Money)

  function DebitEntry(t: Transfer, correlationId: string, now: string): Entry {
    Entry(t.key + ":debit", t.debitAccount, Debit, t.money, now, correlationId, None, None)
  }

  function CreditEntry(t: Transfer, correlationId: string, now: string): Entry {
    Entry(t.key + ":credit", t.creditAccount, Credit, t.money, now, correlationId, None, None)
  }

  function EntriesOf(ts: seq<Transfer>, correlationId: string, now: string): (entries: seq<Entry>)
    ensures |entries| == 2 * |ts|
  {
    if ts == [] then []
    else EntriesOf(ts[..|ts| - 1], correlationId, now)
         + [DebitEntry(ts[|ts| - 1], correlationId, now), CreditEntry(ts[|ts| - 1], correlationId, now)]
  }

  lemma {:induction false} EntryAt(ts: seq<Transfer>, correlationId: string, now: string, k: nat)
    requires k < |ts|
    ensures EntriesOf(ts, correlationId, now)[2 * k] == DebitEntry(ts[k], correlationId, now)
    ensures EntriesOf(ts, correlationId, now)[2 * k + 1] == CreditEntry(ts[k], correlationId, now)
  {
    if k < |ts| - 1 {
      EntryAt(ts[..|ts| - 1], correlationId, now, k);
    }
  }

  lemma PairBalanced(t: Transfer, correlationId: string, now: string)
    ensures Balanced([DebitEntry(t, correlationId, now), CreditEntry(t, correlationId, now)])
  {
    hide Units;
    var d, c := DebitEntry(t, correlationId, now), CreditEntry(t, correlationId, now);
    forall currency
      ensures Sum([d, c], InCurrency(currency), Debit) == Sum([d, c], InCurrency(currency), Credit)
    {
      SumTwo(d, c, InCurrency(currency), Debit);
      SumTwo(d, c, InCurrency(currency), Credit);
      SameUnits(d, c);
    }
  }

  lemma SameUnits(d: Entry, c: Entry)
    requires d.money == c.money
    ensures Units(d) == Units(c)
  {
  }

  lemma {:induction false} TransfersBalanced(ts: seq<Transfer>, correlationId: string, now: string)
    ensures Balanced(EntriesOf(ts, correlationId, now))
  {
    hide Balanced;
    if ts == [] {
      NothingBalanced();
    } else {
      var n := |ts| - 1;
      TransfersBalanced(ts[..n], correlationId, now);
      PairBalanced(ts[n], correlationId, now);
      BalancedConcat(EntriesOf(ts[..n], correlationId, now), [DebitEntry(ts[n], correlationId, now), CreditEntry(ts[n], correlationId, now)]);
    }
  }

  lemma NothingBalanced()
    ensures Balanced([])
  {
  }

  predicate DistinctKeys(ts: seq<Transfer>) {
    forall j, k :: 0 <= j < k < |ts| ==> ts[j].key != ts[k].key
  }

  /** A debit id never equals a credit id, and equal ids of one side come from equal keys. */
  lemma IdsSeparate(a: string, b: string)
    ensures a + ":debit" != b + ":credit"
    ensures a + ":debit" == b + ":debit" ==> a == b
    ensures a + ":credit" == b + ":credit" ==> a == b
  {
    var d, c := a + ":debit", b + ":credit";
    assert d[|d| - 6] == ':' && c[|c| - 6] == 'c';
    assert (a + ":debit")[..|a|] == a && (b + ":debit")[..|b|] == b;
    assert (a + ":credit")[..|a|] == a && (b + ":credit")[..|b|] == b;
  }

  lemma TransferIdsDistinct(ts: seq<Transfer>, correlationId: string, now: string)
    requires DistinctKeys(ts)
    ensures DistinctIds(EntriesOf(ts, correlationId, now))
  {
    var es := EntriesOf(ts, correlationId, now);
    forall i, j | 0 <= i < j < |es|
      ensures es[i].id != es[j].id
    {
      EntryAt(ts, correlationId, now, i / 2);
      EntryAt(ts, correlationId, now, j / 2);
      IdsSeparate(ts[i / 2].key, ts[j / 2].key);
      IdsSeparate(ts[j / 2].key, ts[i / 2].key);
      EntryIdAt(ts, correlationId, now, i);
      EntryIdAt(ts, correlationId, now, j);
    }
  }

  lemma EntryIdAt(ts: seq<Transfer>, correlationId: string, now: string, i: nat)
    requires i < 2 * |ts|
    ensures EntriesOf(ts, correlationId, now)[i].id == ts[i / 2].key + if i % 2 == 0 then ":debit" else ":credit"
  {
    EntryAt(ts, correlationId, now, i / 2);
  }

  /** Both accounts are registered and the money is valid and positive. */
  predicate Postable(accounts: seq<Account>, t: Transfer) {
    && HasAccount(accounts, t.debitAccount) && HasAccount(accounts, t.creditAccount)
    && ValidateMoney(t.money).Ok? && Scaled(t.money).value > 0
  }

  predicate IdsTaken(entries: seq<Entry>, ts: seq<Transfer>) {
    exists i, k :: 0 <= i < |entries| && 0 <= k < |ts| && (entries[i].id == ts[k].key + ":debit" || entries[i].id == ts[k].key + ":credit")
  }

  lemma TransferSound(accounts: seq<Account>, ts: seq<Transfer>, correlationId: string, now: string, i: nat)
    requires i < 2 * |ts| && Postable(accounts, ts[i / 2])
    ensures var e := EntriesOf(ts, correlationId, now)[i];
            SoundEntry(accounts, e) && e.correlationId == correlationId
  {
    hide ParseAmount, HasAccount, Trim;
    EntryAt(ts, correlationId, now, i / 2);
  }

  lemma FreshExactly(entries: seq<Entry>, ts: seq<Transfer>, correlationId: string, now: string)
    requires DistinctKeys(ts)
    ensures FreshIds(entries, EntriesOf(ts, correlationId, now)) <==> !IdsTaken(entries, ts)
  {
    var es := EntriesOf(ts, correlationId, now);
    TransferIdsDistinct(ts, correlationId, now);
    forall i, j | 0 <= i < |entries| && 0 <= j < |es| && !IdsTaken(entries, ts)
      ensures entries[i].id != es[j].id
    {
      EntryIdAt(ts, correlationId, now, j);
    }
    forall i, k | 0 <= i < |entries| && 0 <= k < |ts| && FreshIds(entries, es)
      ensures entries[i].id != ts[k].key + ":debit" && entries[i].id != ts[k].key + ":credit"
    {
      EntryAt(ts, correlationId, now, k);
      assert entries[i].id != es[2 * k].id && entries[i].id != es[2 * k + 1].id;
    }
  }

  /** The ledger takes a batch of postable transfers with distinct keys exactly when no id is taken. */
  lemma TransfersAccepted(st: State, ts: seq<Transfer>, correlationId: string, now: string)
    requires ts != [] && DistinctKeys(ts) && forall k :: 0 <= k < |ts| ==> Postable(st.accounts, ts[k])
    ensures AppendError(st, EntriesOf(ts, correlationId, now)) == None <==> !IdsTaken(st.entries, ts)
  {
    hide FreshIds, Balanced, SoundEntry, Postable, IdsTaken, AppendError;
    var es := EntriesOf(ts, correlationId, now);
    TransfersBalanced(ts, correlationId, now);
    FreshExactly(st.entries, ts, correlationId, now);
    forall i | 0 <= i < |es|
      ensures SoundEntry(st.accounts, es[i]) && es[i].correlationId == correlationId
    {
      TransferSound(st.accounts, ts, correlationId, now, i);
    }
    AppendAcceptsExactly(st, es);
  }

  /** A single transfer between registered accounts is taken exactly when its money is valid and positive and
      neither of its ids is taken. */
  lemma TransferAccepted(st: State, t: Transfer, correlationId: string, now: string)
    requires HasAccount(st.accounts, t.debitAccount) && HasAccount(st.accounts, t.creditAccount)
    ensures AppendError(st, EntriesOf([t], correlationId, now)) == None
            <==> ValidateMoney(t.money).Ok? && Scaled(t.money).value > 0 && !IdsTaken(st.entries, [t])
  {
    hide FreshIds, Balanced, HasAccount, IdsTaken, AppendError, ParseAmount;
    if Postable(st.accounts, t) {
      TransfersAccepted(st, [t], correlationId, now);
    } else {
      EntryAt([t], correlationId, now, 0);
      AppendAcceptsExactly(st, EntriesOf([t], correlationId, now));
      UnsoundMoney(st.accounts, EntriesOf([t], correlationId, now)[0]);
    }
  }

  lemma UnsoundMoney(accounts: seq<Account>, e: Entry)
    requires !(ValidateMoney(e.money).Ok? && Scaled(e.money).value > 0)
    ensures !SoundEntry(accounts, e)
  {
  }

  // ---------------------------------------------------------------- totals

  /** What a list of transfers adds to a total over one account and currency: its debits debit the debited
      accounts, its credits credit the credited ones. */
  function Moved(ts: seq<Transfer>, q: Query, side: Side): int {
    if ts == [] then 0
    else
      var t := ts[|ts| - 1];
      var account := if side == Debit then t.debitAccount else t.creditAccount;
      Moved(ts[..|ts| - 1], q, side)
      + if (q.account == None || q.account == Some(account)) && (q.currency == None || q.currency == Some(t.money.currency)) && Scaled(t.money).Ok?
        then Scaled(t.money).value else 0
  }

  lemma {:induction false} TransfersMove(ts: seq<Transfer>, entries: seq<Entry>, correlationId: string, now: string, q: Query, side: Side)
    requires q.correlation == None
    ensures Sum(entries + EntriesOf(ts, correlationId, now), q, side) == Sum(entries, q, side) + Moved(ts, q, side)
  {
    hide Sum, Scaled;
    if ts == [] {
      assert entries + [] == entries;
    } else {
      var n := |ts| - 1;
      TransfersMove(ts[..n], entries, correlationId, now, q, side);
      var d, c := DebitEntry(ts[n], correlationId, now), CreditEntry(ts[n], correlationId, now);
      SumConcat(entries + EntriesOf(ts[..n], correlationId, now), [d, c], q, side);
      SumTwo(d, c, q, side);
      assert entries + EntriesOf(ts, correlationId, now) == (entries + EntriesOf(ts[..n], correlationId, now)) + [d, c];
    }
  }

  // ---------------------------------------------------------------- accounts

  /** registerAccount unless the ledger has it. */
  method EnsureAccount(ledger: Ledgers.Ledger, account: Account)
    requires ledger.Valid()
    modifies ledger
    ensures ledger.Valid() && ledger.entries == old(ledger.entries) && ledger.transactions == old(ledger.transactions)
    ensures HasAccount(ledger.accounts, account.id)
    ensures forall id :: HasAccount(old(ledger.accounts), id) ==> HasAccount(ledger.accounts, id)
  {
    hide WellFormed;
    if !HasAccount(ledger.accounts, account.id) {
      var registered := ledger.RegisterAccount(account);
      AccountsGrow(old(ledger.accounts), account);
    }
  }

  lemma AccountsGrow(accounts: seq<Account>, a: Account)
    ensures HasAccount(accounts + [a], a.id)
    ensures forall id :: HasAccount(accounts, id) ==> HasAccount(accounts + [a], id)
  {
    assert (accounts + [a])[|accounts|] == a;
    forall id | HasAccount(accounts, id)
      ensures HasAccount(accounts + [a], id)
    {
      var i :| 0 <= i < |accounts| && accounts[i].id == id;
      assert (accounts + [a])[i].id == id;
    }
  }
}
