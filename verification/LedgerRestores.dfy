/** Which ledger snapshots can be restored, whatever they were read from: exactly those of the supported version
    whose accounts and entries form a sound ledger (packages/ledger/src/ledger.ts). */
module LedgerRestores {
  import opened Wrappers
  import opened MoneyMath
  import opened Grouping
  import opened LedgerModel

  lemma {:induction false} RegisteredAre(accounts: seq<Account>)
    requires RegisterAll(accounts).Ok?
    ensures RegisterAll(accounts) == Ok(State(accounts, [])) && DistinctAccounts(accounts)
  {
    if accounts != [] {
      var init := accounts[..|accounts| - 1];
      RegisteredAre(init);
      assert accounts == init + [accounts[|accounts| - 1]];
    }
  }

  lemma NoEntriesWellFormed(accounts: seq<Account>)
    requires DistinctAccounts(accounts)
    ensures WellFormed(State(accounts, []))
  {
  }

  lemma {:induction false} AppendedGroupsAre(st: State, es: seq<Entry>, ks: seq<string>)
    requires WellFormed(st) && st.entries == [] && AppendGroups(st, es, ks).Ok?
    ensures var after := AppendGroups(st, es, ks).value;
            WellFormed(after) && after.accounts == st.accounts && after.entries == Flatten(es, ByCorrelation, ks)
  {
    hide WellFormed, AppendError;
    if ks != [] {
      var n := |ks| - 1;
      AppendedGroupsAre(st, es, ks[..n]);
      AppendKeepsWellFormed(AppendGroups(st, es, ks[..n]).value, Select(es, ByCorrelation, ks[n]));
    }
  }

  // ---------------------------------------------------------------- the order of the entries does not matter

  lemma Twice<T>(s: seq<T>, i: nat, j: nat)
    requires i < j < |s| && s[i] == s[j]
    ensures multiset(s)[s[i]] >= 2
  {
    assert s == s[..j] + [s[j]] + s[j + 1..];
    assert s[i] == s[..j][i] && s[i] in s[..j];
  }

  lemma {:induction false} FoundTwice<T>(s: seq<T>, x: T) returns (i: nat, j: nat)
    requires multiset(s)[x] >= 2
    ensures i < j < |s| && s[i] == s[j] == x
  {
    var n := |s| - 1;
    assert s == s[..n] + [s[n]];
    if s[n] == x {
      j := n;
      assert multiset(s[..n])[x] >= 1;
      assert x in s[..n];
      i :| 0 <= i < n && s[..n][i] == x;
    } else {
      i, j := FoundTwice(s[..n], x);
    }
  }

  lemma DistinctPermuted(a: seq<Entry>, b: seq<Entry>)
    requires multiset(a) == multiset(b) && DistinctIds(a)
    ensures DistinctIds(b)
  {
    forall i, j | 0 <= i < j < |b|
      ensures b[i].id != b[j].id
    {
      assert b[i] in multiset(a) && b[j] in multiset(a);
      if b[i] == b[j] {
        Twice(b, i, j);
        var p, q := FoundTwice(a, b[i]);
      } else {
        var p :| 0 <= p < |a| && a[p] == b[i];
        var q :| 0 <= q < |a| && a[q] == b[j];
      }
    }
  }

  lemma WellFormedPermuted(accounts: seq<Account>, a: seq<Entry>, b: seq<Entry>)
    requires multiset(a) == multiset(b) && WellFormed(State(accounts, a))
    ensures WellFormed(State(accounts, b))
  {
    hide SoundEntry, Sum;
    DistinctPermuted(a, b);
    forall i | 0 <= i < |b|
      ensures SoundEntry(accounts, b[i])
    {
      assert b[i] in multiset(a);
      var j :| 0 <= j < |a| && a[j] == b[i];
    }
    forall q, side
      ensures Sum(a, q, side) == Sum(b, q, side)
    {
      SumPermuted(a, b, q, side);
    }
  }

  /** Restoring replays all entries, grouped by correlation id, onto the accounts. */
  lemma RestoredIs(s: Snapshot)
    requires Restore(s).Ok?
    ensures Restore(s).value == State(s.accounts, Regroup(s.entries, ByCorrelation)) && WellFormed(Restore(s).value)
  {
    hide WellFormed, Append;
    RegisteredAre(s.accounts);
    NoEntriesWellFormed(s.accounts);
    AppendedGroupsAre(State(s.accounts, []), s.entries, Keys(s.entries, ByCorrelation));
  }

  /** A snapshot is restored exactly if its version is 1 and what it holds is a sound ledger: distinct accounts and
      entry ids, valid positive money on known accounts, every correlation id balanced in every currency. An
      altered snapshot is accepted only if the alteration leaves such a ledger. */
  lemma RestoresExactly(s: Snapshot)
    ensures Restore(s).Ok? <==> s.version == 1 && WellFormed(State(s.accounts, s.entries))
    ensures Restore(s) == Err(UnsupportedSnapshotVersion) <==> s.version != 1
  {
    hide WellFormed;
    if Restore(s).Ok? {
      RestoredIs(s);
      RegroupPermutes(s.entries, ByCorrelation);
      WellFormedPermuted(s.accounts, Regroup(s.entries, ByCorrelation), s.entries);
    }
    if s.version == 1 && WellFormed(State(s.accounts, s.entries)) {
      RestoreWellFormed(State(s.accounts, s.entries));
    }
    if s.version == 1 {
      OtherErrors(s);
    }
  }

  lemma {:induction false} RegisterErrors(accounts: seq<Account>)
    ensures RegisterAll(accounts).Err? ==> RegisterAll(accounts).error == DuplicateAccountId
  {
    if accounts != [] {
      RegisterErrors(accounts[..|accounts| - 1]);
    }
  }

  lemma {:induction false} GroupErrors(st: State, es: seq<Entry>, ks: seq<string>)
    ensures AppendGroups(st, es, ks).Err? ==> AppendGroups(st, es, ks).error != UnsupportedSnapshotVersion
  {
    hide AppendError;
    if ks != [] {
      var n := |ks| - 1;
      GroupErrors(st, es, ks[..n]);
      if AppendGroups(st, es, ks[..n]).Ok? {
        AppendErrors(AppendGroups(st, es, ks[..n]).value, Select(es, ByCorrelation, ks[n]));
      }
    }
  }

  lemma AppendErrors(st: State, batch: seq<Entry>)
    ensures AppendError(st, batch) != Some(UnsupportedSnapshotVersion)
  {
    hide Balanced, FreshIds, HasAccount, Units;
    RefusalKinds(batch);
  }

  lemma OtherErrors(s: Snapshot)
    requires s.version == 1
    ensures Restore(s) != Err(UnsupportedSnapshotVersion)
  {
    hide Append;
    RegisterErrors(s.accounts);
    if RegisterAll(s.accounts).Ok? {
      GroupErrors(RegisterAll(s.accounts).value, s.entries, Keys(s.entries, ByCorrelation));
    }
  }
}
