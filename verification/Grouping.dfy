/** Grouping a list by a key with an insertion-ordered Map, as the source does in several places:
    the keys come out in order of first appearance and each group keeps the list's order. */
module Grouping {

  /** The distinct keys of s, in order of first appearance. */
  function Keys<T, K(==)>(s: seq<T>, key: T -> K): seq<K> {
    if s == [] then []
    else
      var ks, k := Keys(s[..|s| - 1], key), key(s[|s| - 1]);
      if k in ks then ks else ks + [k]
  }

  /** The elements of s whose key is k, in order. */
  function Select<T, K(==)>(s: seq<T>, key: T -> K, k: K): seq<T> {
    if s == [] then []
    else
      var xs := Select(s[..|s| - 1], key, k);
      if key(s[|s| - 1]) == k then xs + [s[|s| - 1]] else xs
  }

  /** The groups of s for the keys ks, one after the other. */
  function Flatten<T, K(==)>(s: seq<T>, key: T -> K, ks: seq<K>): seq<T> {
    if ks == [] then []
    else Flatten(s, key, ks[..|ks| - 1]) + Select(s, key, ks[|ks| - 1])
  }

  function Regroup<T, K(==)>(s: seq<T>, key: T -> K): seq<T> {
    Flatten(s, key, Keys(s, key))
  }

  ghost predicate Distinct<K>(ks: seq<K>) {
    forall i, j :: 0 <= i < j < |ks| ==> ks[i] != ks[j]
  }

  lemma {:induction false} KeysAre<T, K>(s: seq<T>, key: T -> K)
    ensures Distinct(Keys(s, key))
    ensures forall i :: 0 <= i < |s| ==> key(s[i]) in Keys(s, key)
    ensures forall k :: k in Keys(s, key) ==> exists i :: 0 <= i < |s| && key(s[i]) == k
  {
    if s != [] {
      var init, last := s[..|s| - 1], s[|s| - 1];
      KeysAre(init, key);
      forall k | k in Keys(s, key)
        ensures exists i :: 0 <= i < |s| && key(s[i]) == k
      {
        if k in Keys(init, key) {
          var i :| 0 <= i < |init| && key(init[i]) == k;
          assert key(s[i]) == k;
        } else {
          assert key(s[|s| - 1]) == k;
        }
      }
      forall i | 0 <= i < |s|
        ensures key(s[i]) in Keys(s, key)
      {
        assert i < |init| ==> s[i] == init[i];
      }
    }
  }

  ghost predicate AllKeyed<T, K>(s: seq<T>, key: T -> K, k: K) {
    forall i :: 0 <= i < |s| ==> key(s[i]) == k
  }

  lemma {:induction false} SelectKeyed<T, K>(s: seq<T>, key: T -> K, k: K)
    ensures AllKeyed(Select(s, key, k), key, k)
    ensures forall x :: x in Select(s, key, k) ==> x in s
    ensures Select(s, key, k) == [] <==> k !in Keys(s, key)
  {
    if s != [] {
      SelectKeyed(s[..|s| - 1], key, k);
    }
  }

  lemma {:induction false} SelectMembers<T(!new), K>(s: seq<T>, key: T -> K, k: K)
    ensures forall x :: x in Select(s, key, k) <==> x in s && key(x) == k
  {
    if s != [] {
      SelectMembers(s[..|s| - 1], key, k);
      assert forall x :: x in s <==> x in s[..|s| - 1] || x == s[|s| - 1];
    }
  }

  lemma {:induction false} SelectConcat<T, K>(a: seq<T>, b: seq<T>, key: T -> K, k: K)
    ensures Select(a + b, key, k) == Select(a, key, k) + Select(b, key, k)
  {
    if b == [] {
      assert a + b == a;
    } else {
      var b' := b[..|b| - 1];
      assert (a + b)[..|a + b| - 1] == a + b';
      SelectConcat(a, b', key, k);
    }
  }

  /** A block all of whose keys are k adds k once, and only k. */
  lemma {:induction false} KeysBlock<T, K>(a: seq<T>, b: seq<T>, key: T -> K, k: K)
    requires k !in Keys(a, key) && AllKeyed(b, key, k)
    ensures Keys(a + b, key) == if b == [] then Keys(a, key) else Keys(a, key) + [k]
  {
    if b == [] {
      assert a + b == a;
    } else {
      var b' := b[..|b| - 1];
      assert (a + b)[..|a + b| - 1] == a + b';
      KeysBlock(a, b', key, k);
    }
  }

  lemma {:induction false} SelectBlock<T, K>(b: seq<T>, key: T -> K, k: K, j: K)
    requires AllKeyed(b, key, k)
    ensures Select(b, key, j) == if j == k then b else []
  {
    if b != [] {
      SelectBlock(b[..|b| - 1], key, k, j);
      assert b == b[..|b| - 1] + [b[|b| - 1]];
    }
  }

  /** Flattening groups for distinct, occurring keys has exactly those keys ... */
  lemma {:induction false} FlattenKeys<T, K>(s: seq<T>, key: T -> K, ks: seq<K>)
    requires Distinct(ks)
    requires forall i :: 0 <= i < |ks| ==> ks[i] in Keys(s, key)
    ensures Keys(Flatten(s, key, ks), key) == ks
  {
    if ks != [] {
      var ks', last := ks[..|ks| - 1], ks[|ks| - 1];
      var b := Select(s, key, last);
      FlattenKeys(s, key, ks');
      assert AllKeyed(b, key, last) && b != [] by { SelectKeyed(s, key, last); }
      KeysBlock(Flatten(s, key, ks'), b, key, last);
      assert ks == ks' + [last];
    }
  }

  /** ... and exactly those groups. */
  lemma {:induction false} FlattenSelect<T, K>(s: seq<T>, key: T -> K, ks: seq<K>, k: K)
    requires Distinct(ks)
    ensures Select(Flatten(s, key, ks), key, k) == if k in ks then Select(s, key, k) else []
  {
    if ks != [] {
      var ks', last := ks[..|ks| - 1], ks[|ks| - 1];
      var a, b := Flatten(s, key, ks'), Select(s, key, last);
      FlattenSelect(s, key, ks', k);
      assert AllKeyed(b, key, last) by { SelectKeyed(s, key, last); }
      SelectConcat(a, b, key, k);
      SelectBlock(b, key, last, k);
      assert k in ks <==> k in ks' || k == last;
      if k == last {
        assert Select(a, key, k) == [];
      }
    }
  }

  lemma {:induction false} FlattenCongruent<T, K>(s: seq<T>, t: seq<T>, key: T -> K, ks: seq<K>)
    requires forall i :: 0 <= i < |ks| ==> Select(s, key, ks[i]) == Select(t, key, ks[i])
    ensures Flatten(s, key, ks) == Flatten(t, key, ks)
  {
    if ks != [] {
      FlattenCongruent(s, t, key, ks[..|ks| - 1]);
    }
  }

  lemma RegroupSelect<T, K>(s: seq<T>, key: T -> K, k: K)
    ensures Select(Regroup(s, key), key, k) == Select(s, key, k)
  {
    KeysAre(s, key);
    FlattenSelect(s, key, Keys(s, key), k);
    SelectKeyed(s, key, k);
  }

  /** Grouping is idempotent: the grouped list has the same keys in the same order, the same groups,
      and is its own grouping. */
  lemma RegroupTwice<T, K>(s: seq<T>, key: T -> K)
    ensures Keys(Regroup(s, key), key) == Keys(s, key)
    ensures Regroup(Regroup(s, key), key) == Regroup(s, key)
  {
    var ks, g := Keys(s, key), Regroup(s, key);
    KeysAre(s, key);
    FlattenKeys(s, key, ks);
    forall i | 0 <= i < |ks|
      ensures Select(g, key, ks[i]) == Select(s, key, ks[i])
    {
      RegroupSelect(s, key, ks[i]);
    }
    FlattenCongruent(g, s, key, ks);
  }

  /** Grouping neither loses nor invents an element. */
  lemma {:induction false} RegroupPermutes<T, K>(s: seq<T>, key: T -> K)
    ensures multiset(Regroup(s, key)) == multiset(s)
  {
    if s != [] {
      var init, x := s[..|s| - 1], s[|s| - 1];
      var ks, k := Keys(init, key), key(x);
      RegroupPermutes(init, key);
      KeysAre(init, key);
      assert s == init + [x];
      if k in ks {
        FlattenSnoc(init, x, key, ks);
      } else {
        FlattenOther(init, x, key, ks);
        SelectKeyed(init, key, k);
        assert (ks + [k])[..|ks|] == ks;
      }
    }
  }

  lemma {:induction false} FlattenOther<T, K>(s: seq<T>, x: T, key: T -> K, ks: seq<K>)
    requires key(x) !in ks
    ensures Flatten(s + [x], key, ks) == Flatten(s, key, ks)
  {
    if ks != [] {
      FlattenOther(s, x, key, ks[..|ks| - 1]);
      assert (s + [x])[..|s|] == s;
      assert key(x) != ks[|ks| - 1];
    }
  }

  lemma {:induction false} FlattenSnoc<T, K>(s: seq<T>, x: T, key: T -> K, ks: seq<K>)
    requires Distinct(ks) && key(x) in ks
    ensures multiset(Flatten(s + [x], key, ks)) == multiset(Flatten(s, key, ks)) + multiset{x}
  {
    var ks', last := ks[..|ks| - 1], ks[|ks| - 1];
    assert (s + [x])[..|s|] == s;
    if key(x) == last {
      FlattenOther(s, x, key, ks');
    } else {
      FlattenSnoc(s, x, key, ks');
    }
  }

  /** The last element of a occurs in its permutation b, and the rest of a permutes the rest of b. */
  lemma Without<T>(a: seq<T>, b: seq<T>) returns (j: nat)
    requires multiset(a) == multiset(b) && a != []
    ensures j < |b| && b[j] == a[|a| - 1]
    ensures multiset(a[..|a| - 1]) == multiset(b[..j] + b[j + 1..])
  {
    var x := a[|a| - 1];
    assert x in multiset(b);
    j :| 0 <= j < |b| && b[j] == x;
    calc {
      multiset(a[..|a| - 1]);
      { assert a == a[..|a| - 1] + [x]; }
      multiset(a) - multiset{x};
      multiset(b) - multiset{x};
      { assert b == b[..j] + [x] + b[j + 1..]; }
      multiset(b[..j] + b[j + 1..]);
    }
  }

  lemma SnocKeys<T, K>(s: seq<T>, x: T, key: T -> K)
    ensures Keys(s + [x], key) == if key(x) in Keys(s, key) then Keys(s, key) else Keys(s, key) + [key(x)]
  {
    assert (s + [x])[..|s|] == s;
  }

  lemma SnocSelect<T, K>(s: seq<T>, x: T, key: T -> K, k: K)
    ensures Select(s + [x], key, k) == if key(x) == k then Select(s, key, k) + [x] else Select(s, key, k)
  {
    assert (s + [x])[..|s|] == s;
  }

  function One<T, K(==)>(x: T, key: T -> K, k: K): seq<T> {
    if key(x) == k then [x] else []
  }

  lemma SelectFour<T, K>(e0: T, e1: T, e2: T, e3: T, key: T -> K, k: K)
    ensures Select([e0, e1, e2, e3], key, k) == One(e0, key, k) + One(e1, key, k) + One(e2, key, k) + One(e3, key, k)
  {
    var s0, s1, s2 := [e0], [e0, e1], [e0, e1, e2];
    assert [e0, e1, e2, e3][..3] == s2 && s2[..2] == s1 && s1[..1] == s0 && s0[..0] == [];
    assert Select(s0, key, k) == One(e0, key, k);
    assert Select(s1, key, k) == One(e0, key, k) + One(e1, key, k);
    assert Select(s2, key, k) == One(e0, key, k) + One(e1, key, k) + One(e2, key, k);
  }

  /** Four elements of which only the first and third share a key. */
  lemma GroupsOfFour<T, K>(e0: T, e1: T, e2: T, e3: T, key: T -> K)
    requires key(e0) == key(e2) && key(e0) != key(e1) && key(e0) != key(e3) && key(e1) != key(e3)
    ensures Keys([e0, e1, e2, e3], key) == [key(e0), key(e1), key(e3)]
    ensures Select([e0, e1, e2, e3], key, key(e0)) == [e0, e2]
    ensures Select([e0, e1, e2, e3], key, key(e1)) == [e1]
    ensures Select([e0, e1, e2, e3], key, key(e3)) == [e3]
  {
    var s0, s1, s2 := [e0], [e0, e1], [e0, e1, e2];
    assert [e0, e1, e2, e3][..3] == s2 && s2[..2] == s1 && s1[..1] == s0 && s0[..0] == [];
    assert Keys(s0, key) == [key(e0)];
    assert Keys(s1, key) == [key(e0), key(e1)];
    assert Keys(s2, key) == [key(e0), key(e1)];
    SelectFour(e0, e1, e2, e3, key, key(e0));
    SelectFour(e0, e1, e2, e3, key, key(e1));
    SelectFour(e0, e1, e2, e3, key, key(e3));
  }

  // ---------------------------------------------------------------- filters

  function Filter<T>(xs: seq<T>, keep: T -> bool): seq<T> {
    if xs == [] then []
    else Filter(xs[..|xs| - 1], keep) + if keep(xs[|xs| - 1]) then [xs[|xs| - 1]] else []
  }

  lemma {:induction false} FilterMembers<T(!new)>(xs: seq<T>, keep: T -> bool)
    ensures forall x :: x in Filter(xs, keep) <==> x in xs && keep(x)
  {
    if xs != [] {
      var init, last := xs[..|xs| - 1], xs[|xs| - 1];
      FilterMembers(init, keep);
      assert forall x :: x in xs <==> x in init || x == last;
    }
  }

  lemma {:induction false} FilterConcat<T>(a: seq<T>, b: seq<T>, keep: T -> bool)
    ensures Filter(a + b, keep) == Filter(a, keep) + Filter(b, keep)
  {
    if b == [] {
      assert a + b == a;
    } else {
      assert (a + b)[..|a + b| - 1] == a + b[..|b| - 1];
      FilterConcat(a, b[..|b| - 1], keep);
    }
  }

  lemma FilterSnoc<T>(xs: seq<T>, x: T, keep: T -> bool)
    ensures Filter(xs + [x], keep) == Filter(xs, keep) + if keep(x) then [x] else []
  {
    assert (xs + [x])[..|xs|] == xs;
  }

  lemma {:induction false} FilterCongruent<T>(xs: seq<T>, p: T -> bool, q: T -> bool)
    requires forall i :: 0 <= i < |xs| ==> (p(xs[i]) <==> q(xs[i]))
    ensures Filter(xs, p) == Filter(xs, q)
  {
    if xs != [] {
      FilterCongruent(xs[..|xs| - 1], p, q);
    }
  }

  lemma {:induction false} FilterAll<T>(xs: seq<T>, keep: T -> bool)
    requires forall i :: 0 <= i < |xs| ==> keep(xs[i])
    ensures Filter(xs, keep) == xs
  {
    if xs != [] {
      FilterAll(xs[..|xs| - 1], keep);
      assert xs == xs[..|xs| - 1] + [xs[|xs| - 1]];
    }
  }

  lemma {:induction false} FilterNone<T>(xs: seq<T>, keep: T -> bool)
    requires forall i :: 0 <= i < |xs| ==> !keep(xs[i])
    ensures Filter(xs, keep) == []
  {
    if xs != [] {
      FilterNone(xs[..|xs| - 1], keep);
    }
  }

  /** Filtering a group is the group of the filtered list. */
  lemma {:induction false} SelectFilter<T, K>(s: seq<T>, key: T -> K, k: K, keep: T -> bool)
    ensures Select(Filter(s, keep), key, k) == Filter(Select(s, key, k), keep)
  {
    if s != [] {
      var init, x := s[..|s| - 1], s[|s| - 1];
      SelectFilter(init, key, k, keep);
      assert Filter(init, keep) + [] == Filter(init, keep);
      FilterSnoc(Select(init, key, k), x, keep);
      SnocSelect(Filter(init, keep), x, key, k);
    }
  }

  // ---------------------------------------------------------------- counting

  function Count<T>(xs: seq<T>, p: T -> bool): nat {
    |Filter(xs, p)|
  }

  lemma CountConcat<T>(a: seq<T>, b: seq<T>, p: T -> bool)
    ensures Count(a + b, p) == Count(a, p) + Count(b, p)
  {
    FilterConcat(a, b, p);
  }

  lemma CountOne<T>(x: T, p: T -> bool)
    ensures Count([x], p) == if p(x) then 1 else 0
    ensures Count([], p) == 0
  {
    FilterSnoc([], x, p);
    assert [] + [x] == [x];
  }

  lemma CountSnoc<T>(xs: seq<T>, p: T -> bool)
    requires xs != []
    ensures var n := |xs| - 1; Count(xs, p) == Count(xs[..n], p) + if p(xs[n]) then 1 else 0
  {
  }
}
