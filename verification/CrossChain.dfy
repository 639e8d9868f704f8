/** Double-counting prevention across chains: the bucketed single pass against the pairwise rule
    (packages/reconciler/src/cross-chain-rules.ts). */
module CrossChain {
  import opened Wrappers
  import opened Grouping
  import opened Matching

  datatype Event = Event(chainId: string, txHash: string, amount: string, symbol: string, from: string, to: string)

  /** Which chain each chain settles on. */
  type Pairs = map<string, string>

  predicate SettlesOn(pairs: Pairs, chain: string, target: string) {
    chain in pairs && pairs[chain] == target
  }

  // ---------------------------------------------------------------- grouping keys

  function Addresses(e: Event): string {
    if Less(e.to, e.from) then e.to + ("|" + e.from) else e.from + ("|" + e.to)
  }

  function KeyOf(e: Event): string {
    e.amount + (":" + (e.symbol + (":" + Addresses(e))))
  }

  /** No key field contains the separator that ends it. */
  predicate SeparatorFree(e: Event) {
    ':' !in e.amount && ':' !in e.symbol && '|' !in e.from && '|' !in e.to
  }

  predicate SameTransfer(e: Event, f: Event) {
    && e.amount == f.amount && e.symbol == f.symbol
    && ((e.from == f.from && e.to == f.to) || (e.from == f.to && e.to == f.from))
  }

  lemma SplitAt(a: string, b: string, c: string, d: string, sep: char)
    requires sep !in a && sep !in c && a + ([sep] + b) == c + ([sep] + d)
    ensures a == c && b == d
  {
    var s := a + ([sep] + b);
    assert s[|a|] == sep && (c + ([sep] + d))[|c|] == sep;
    assert forall i :: 0 <= i < |a| ==> s[i] in a;
    assert forall i :: 0 <= i < |c| ==> s[i] in c;
    assert |a| == |c|;
    assert a == s[..|a|] == c;
    assert b == s[|a| + 1..] == d;
  }

  lemma {:induction false} LessIsTotal(a: string, b: string)
    ensures Less(a, b) || Less(b, a) || a == b
    ensures !(Less(a, b) && Less(b, a))
  {
    if a != "" && b != "" && a[0] == b[0] {
      LessIsTotal(a[1..], b[1..]);
      assert a == [a[0]] + a[1..] && b == [b[0]] + b[1..];
    }
  }

  /** For separator-free fields the joined key says exactly: same amount, symbol and pair of addresses. */
  lemma KeyIsExact(e: Event, f: Event)
    requires SeparatorFree(e) && SeparatorFree(f)
    ensures KeyOf(e) == KeyOf(f) <==> SameTransfer(e, f)
  {
    hide Less;
    LessIsTotal(e.from, e.to);
    LessIsTotal(f.from, f.to);
    if KeyOf(e) == KeyOf(f) {
      SplitAt(e.amount, e.symbol + (":" + Addresses(e)), f.amount, f.symbol + (":" + Addresses(f)), ':');
      SplitAt(e.symbol, Addresses(e), f.symbol, Addresses(f), ':');
      var e0, e1 := if Less(e.to, e.from) then e.to else e.from, if Less(e.to, e.from) then e.from else e.to;
      var f0, f1 := if Less(f.to, f.from) then f.to else f.from, if Less(f.to, f.from) then f.from else f.to;
      SplitAt(e0, e1, f0, f1, '|');
    }
  }

  // ---------------------------------------------------------------- the rule

  /** The pairwise rule: some event of the same group sits on a chain that settles on this event's chain. */
  ghost predicate Artifact(pairs: Pairs, events: seq<Event>, e: Event) {
    exists f :: f in events && KeyOf(f) == KeyOf(e) && SettlesOn(pairs, f.chainId, e.chainId)
  }

  /** What the code removes: artifacts in groups of at least two. */
  ghost predicate Removes(pairs: Pairs, events: seq<Event>, e: Event) {
    |Select(events, KeyOf, KeyOf(e))| > 1 && Artifact(pairs, events, e)
  }

  ghost function Stays(pairs: Pairs, events: seq<Event>): Event -> bool {
    (e: Event) => !Removes(pairs, events, e)
  }

  ghost function Goes(pairs: Pairs, events: seq<Event>): Event -> bool {
    (e: Event) => Removes(pairs, events, e)
  }

  /** The events that stay, or go, group by group. */
  ghost function KeptFor(pairs: Pairs, events: seq<Event>, keys: seq<string>): seq<Event> {
    Flatten(Filter(events, Stays(pairs, events)), KeyOf, keys)
  }

  ghost function RemovedFor(pairs: Pairs, events: seq<Event>, keys: seq<string>): seq<Event> {
    Flatten(Filter(events, Goes(pairs, events)), KeyOf, keys)
  }

  ghost function Kept(pairs: Pairs, events: seq<Event>): seq<Event> {
    KeptFor(pairs, events, Keys(events, KeyOf))
  }

  ghost function Removed(pairs: Pairs, events: seq<Event>): seq<Event> {
    RemovedFor(pairs, events, Keys(events, KeyOf))
  }

  // ---------------------------------------------------------------- the pass

  function Chains(group: seq<Event>): set<string> {
    set e | e in group :: e.chainId
  }

  /** The group's chains on which another chain of the group settles. */
  function Targets(pairs: Pairs, present: set<string>): set<string> {
    set c | c in present && c in pairs && pairs[c] in present :: pairs[c]
  }

  function On(chains: set<string>): Event -> bool {
    (e: Event) => e.chainId in chains
  }

  function Off(chains: set<string>): Event -> bool {
    (e: Event) => e.chainId !in chains
  }

  method ArtifactChains(pairs: Pairs, group: seq<Event>) returns (artifacts: set<string>)
    ensures artifacts == Targets(pairs, Chains(group))
  {
    var present: set<string> := {};
    for i := 0 to |group|
      invariant present == Chains(group[..i])
    {
      assert group[..i + 1] == group[..i] + [group[i]];
      present := present + {group[i].chainId};
    }
    assert group[..|group|] == group;
    artifacts := SettledChains(pairs, present);
  }

  method SettledChains(pairs: Pairs, present: set<string>) returns (artifacts: set<string>)
    ensures artifacts == Targets(pairs, present)
  {
    artifacts := {};
    var todo := present;
    while todo != {}
      invariant todo <= present
      invariant artifacts == set c | c in present - todo && c in pairs && pairs[c] in present :: pairs[c]
      decreases |todo|
    {
      var chain :| chain in todo;
      todo := todo - {chain};
      if chain in pairs && pairs[chain] in present {
        artifacts := artifacts + {pairs[chain]};
      }
    }
  }

  method SplitGroup(pairs: Pairs, group: seq<Event>) returns (kept: seq<Event>, removed: seq<Event>)
    ensures kept == if |group| <= 1 then group else Filter(group, Off(Targets(pairs, Chains(group))))
    ensures removed == if |group| <= 1 then [] else Filter(group, On(Targets(pairs, Chains(group))))
  {
    hide Chains, Targets;
    if |group| <= 1 { return group, []; }
    var artifacts := ArtifactChains(pairs, group);
    ghost var keep, drop := Off(artifacts), On(artifacts);
    kept, removed := [], [];
    if |artifacts| > 0 {
      for i := 0 to |group|
        invariant kept == Filter(group[..i], keep) && removed == Filter(group[..i], drop)
      {
        assert group[..i + 1] == group[..i] + [group[i]];
        FilterSnoc(group[..i], group[i], keep);
        FilterSnoc(group[..i], group[i], drop);
        if group[i].chainId in artifacts {
          removed := removed + [group[i]];
        } else {
          kept := kept + [group[i]];
        }
      }
      assert group[..|group|] == group;
    } else {
      kept := group;
      FilterAll(group, keep);
      FilterNone(group, drop);
    }
  }

  /** Within a group, the bucketed test is the pairwise rule. */
  lemma GroupSplits(pairs: Pairs, events: seq<Event>, key: string)
    ensures var group := Select(events, KeyOf, key);
            && Select(Filter(events, Stays(pairs, events)), KeyOf, key)
               == (if |group| <= 1 then group else Filter(group, Off(Targets(pairs, Chains(group)))))
            && Select(Filter(events, Goes(pairs, events)), KeyOf, key)
               == (if |group| <= 1 then [] else Filter(group, On(Targets(pairs, Chains(group)))))
  {
    hide KeyOf, Removes, Chains, Targets, Select;
    var group, stay, go := Select(events, KeyOf, key), Stays(pairs, events), Goes(pairs, events);
    SelectFilter(events, KeyOf, key, stay);
    SelectFilter(events, KeyOf, key, go);
    forall i | 0 <= i < |group|
      ensures Removes(pairs, events, group[i]) <==> |group| > 1 && group[i].chainId in Targets(pairs, Chains(group))
    {
      MemberRemoved(pairs, events, key, group[i]);
    }
    if |group| <= 1 {
      FilterAll(group, stay);
      FilterNone(group, go);
    } else {
      FilterCongruent(group, stay, Off(Targets(pairs, Chains(group))));
      FilterCongruent(group, go, On(Targets(pairs, Chains(group))));
    }
  }

  lemma MemberRemoved(pairs: Pairs, events: seq<Event>, key: string, e: Event)
    requires e in Select(events, KeyOf, key)
    ensures var group := Select(events, KeyOf, key);
            Removes(pairs, events, e) <==> |group| > 1 && e.chainId in Targets(pairs, Chains(group))
  {
    hide KeyOf, Chains, Targets;
    SelectMembers(events, KeyOf, key);
    TargetMeansArtifact(pairs, events, Select(events, KeyOf, key), e);
  }

  lemma TargetMeansArtifact(pairs: Pairs, events: seq<Event>, group: seq<Event>, e: Event)
    requires group == Select(events, KeyOf, KeyOf(e)) && e in group
    ensures Artifact(pairs, events, e) <==> e.chainId in Targets(pairs, Chains(group))
  {
    hide KeyOf;
    SelectMembers(events, KeyOf, KeyOf(e));
    if Artifact(pairs, events, e) {
      var f :| f in events && KeyOf(f) == KeyOf(e) && SettlesOn(pairs, f.chainId, e.chainId);
      assert f in group && f.chainId in Chains(group);
    }
    if e.chainId in Targets(pairs, Chains(group)) {
      var f :| f in group && SettlesOn(pairs, f.chainId, e.chainId);
      assert f in events && KeyOf(f) == KeyOf(e);
    }
  }

  /** preventDoubleCounting. */
  method PreventDoubleCounting(pairs: Pairs, events: seq<Event>) returns (kept: seq<Event>, removed: seq<Event>)
    ensures kept == Kept(pairs, events) && removed == Removed(pairs, events)
  {
    hide KeyOf, Stays, Goes;
    var keys, groups := GroupByKey(events);
    kept, removed := [], [];
    for i := 0 to |keys|
      invariant kept == KeptFor(pairs, events, keys[..i]) && removed == RemovedFor(pairs, events, keys[..i])
    {
      var k, r := SplitGroup(pairs, groups[keys[i]]);
      GroupSplits(pairs, events, keys[i]);
      assert keys[..i + 1][..i] == keys[..i];
      kept, removed := kept + k, removed + r;
    }
    assert keys[..|keys|] == keys;
  }

  method GroupByKey(events: seq<Event>) returns (keys: seq<string>, groups: map<string, seq<Event>>)
    ensures keys == Keys(events, KeyOf)
    ensures forall k :: k in keys ==> k in groups && groups[k] == Select(events, KeyOf, k)
  {
    hide KeyOf;
    keys, groups := [], map[];
    for i := 0 to |events|
      invariant keys == Keys(events[..i], KeyOf)
      invariant forall k :: k in groups <==> k in keys
      invariant forall k :: k in keys ==> groups[k] == Select(events[..i], KeyOf, k)
    {
      var e := events[i];
      var key := KeyOf(e);
      assert events[..i + 1] == events[..i] + [e];
      SnocKeys(events[..i], e, KeyOf);
      forall k
        ensures Select(events[..i + 1], KeyOf, k) == if key == k then Select(events[..i], KeyOf, k) + [e] else Select(events[..i], KeyOf, k)
      {
        SnocSelect(events[..i], e, KeyOf, k);
      }
      if key in groups {
        groups := groups[key := groups[key] + [e]];
      } else {
        SelectKeyed(events[..i], KeyOf, key);
        groups := groups[key := [e]];
        keys := keys + [key];
      }
    }
    assert events[..|events|] == events;
  }

  // ---------------------------------------------------------------- nothing lost, nothing invented

  lemma {:induction false} FilterPartition(xs: seq<Event>, p: Event -> bool, q: Event -> bool)
    requires forall e :: p(e) <==> !q(e)
    ensures multiset(Filter(xs, p)) + multiset(Filter(xs, q)) == multiset(xs)
  {
    if xs != [] {
      var init, x := xs[..|xs| - 1], xs[|xs| - 1];
      FilterPartition(init, p, q);
      FilterSnoc(init, x, p);
      FilterSnoc(init, x, q);
      assert xs == init + [x];
      Shared(Filter(init, p), Filter(init, q), init, x, p(x));
    }
  }

  lemma Shared(a: seq<Event>, b: seq<Event>, c: seq<Event>, x: Event, left: bool)
    requires multiset(a) + multiset(b) == multiset(c)
    ensures multiset(a + if left then [x] else []) + multiset(b + if left then [] else [x]) == multiset(c + [x])
  {
    if left {
      assert b + [] == b;
    } else {
      assert a + [] == a;
    }
  }

  lemma {:induction false} FlattenPartition(s: seq<Event>, keys: seq<string>, p: Event -> bool, q: Event -> bool)
    requires forall e :: p(e) <==> !q(e)
    ensures multiset(Flatten(Filter(s, p), KeyOf, keys)) + multiset(Flatten(Filter(s, q), KeyOf, keys)) == multiset(Flatten(s, KeyOf, keys))
  {
    hide KeyOf;
    if keys != [] {
      var k := keys[|keys| - 1];
      FlattenPartition(s, keys[..|keys| - 1], p, q);
      SelectFilter(s, KeyOf, k, p);
      SelectFilter(s, KeyOf, k, q);
      FilterPartition(Select(s, KeyOf, k), p, q);
    }
  }

  /** Every event, as often as it occurs, is either kept or removed. */
  lemma SplitsExactly(pairs: Pairs, events: seq<Event>)
    ensures multiset(Kept(pairs, events)) + multiset(Removed(pairs, events)) == multiset(events)
  {
    hide Removes, KeyOf;
    FlattenPartition(events, Keys(events, KeyOf), Stays(pairs, events), Goes(pairs, events));
    RegroupPermutes(events, KeyOf);
  }

  // ---------------------------------------------------------------- acyclic settlement

  /** The chain reached by settling n times, if it settles that often. */
  function Hop(pairs: Pairs, chain: string, n: nat): Option<string>
    decreases n
  {
    if n == 0 then Some(chain)
    else if chain in pairs then Hop(pairs, pairs[chain], n - 1)
    else None
  }

  /** No chain settles, directly or through others, on itself. */
  ghost predicate Acyclic(pairs: Pairs) {
    forall c, n: nat :: n >= 1 ==> Hop(pairs, c, n) != Some(c)
  }

  lemma NoSelfSettling(pairs: Pairs, c: string)
    requires Acyclic(pairs)
    ensures !SettlesOn(pairs, c, c)
  {
    assert Hop(pairs, c, 1) != Some(c);
    if c in pairs {
      assert Hop(pairs, c, 1) == Hop(pairs, pairs[c], 0);
    }
  }

  /** The code's rule is the pairwise rule: the group size it also looks at makes no difference. */
  lemma RemovesExactlyArtifacts(pairs: Pairs, events: seq<Event>, e: Event)
    requires Acyclic(pairs) && e in events
    ensures Removes(pairs, events, e) <==> Artifact(pairs, events, e)
  {
    hide KeyOf, Acyclic, Hop;
    if Artifact(pairs, events, e) {
      var f :| f in events && KeyOf(f) == KeyOf(e) && SettlesOn(pairs, f.chainId, e.chainId);
      var group := Select(events, KeyOf, KeyOf(e));
      SelectMembers(events, KeyOf, KeyOf(e));
      assert e in group && f in group;
      NoSelfSettling(pairs, e.chainId);
      assert e != f;
    }
  }

  lemma {:induction false} FlattenMembers(s: seq<Event>, keys: seq<string>)
    ensures forall e :: e in Flatten(s, KeyOf, keys) <==> e in s && KeyOf(e) in keys
  {
    hide KeyOf;
    if keys != [] {
      var k := keys[|keys| - 1];
      FlattenMembers(s, keys[..|keys| - 1]);
      SelectMembers(s, KeyOf, k);
      assert keys == keys[..|keys| - 1] + [k];
    }
  }

  /** An event is removed if and only if the pairwise rule says so, and kept otherwise. */
  lemma RemovedIffArtifact(pairs: Pairs, events: seq<Event>, e: Event)
    requires Acyclic(pairs)
    ensures e in Removed(pairs, events) <==> e in events && Artifact(pairs, events, e)
    ensures e in Kept(pairs, events) <==> e in events && !Artifact(pairs, events, e)
  {
    hide KeyOf, Acyclic, Artifact, Removes;
    var keys := Keys(events, KeyOf);
    FlattenMembers(Filter(events, Stays(pairs, events)), keys);
    FlattenMembers(Filter(events, Goes(pairs, events)), keys);
    FilterMembers(events, Stays(pairs, events));
    FilterMembers(events, Goes(pairs, events));
    KeysAre(events, KeyOf);
    if e in events {
      RemovesExactlyArtifacts(pairs, events, e);
      var i :| 0 <= i < |events| && events[i] == e;
      assert KeyOf(events[i]) in keys;
    }
  }

  /** In the events' own terms: some event of the same amount, symbol and address pair is on a chain that
      settles on e's. */
  ghost predicate SettledElsewhere(pairs: Pairs, events: seq<Event>, e: Event) {
    exists f :: f in events && SameTransfer(f, e) && SettlesOn(pairs, f.chainId, e.chainId)
  }

  /** With separator-free events, an event is removed if and only if the same transfer is also among the events
      on a chain that settles on its chain, and kept otherwise. */
  lemma RemovedIffSettledElsewhere(pairs: Pairs, events: seq<Event>, e: Event)
    requires Acyclic(pairs) && forall f :: f in events ==> SeparatorFree(f)
    ensures e in Removed(pairs, events) <==> e in events && SettledElsewhere(pairs, events, e)
    ensures e in Kept(pairs, events) <==> e in events && !SettledElsewhere(pairs, events, e)
  {
    hide KeyOf, Acyclic, SameTransfer, SeparatorFree, Kept, Removed;
    RemovedIffArtifact(pairs, events, e);
    if e in events {
      forall f | f in events
        ensures KeyOf(f) == KeyOf(e) <==> SameTransfer(f, e)
      {
        KeyIsExact(f, e);
      }
    }
  }

  // ---------------------------------------------------------------- every group keeps an event

  /** A walk against the direction of settlement. */
  ghost predicate Upstream(pairs: Pairs, p: seq<string>) {
    forall i :: 0 <= i < |p| - 1 ==> SettlesOn(pairs, p[i + 1], p[i])
  }

  ghost predicate HasSettler(pairs: Pairs, s: set<string>, c: string) {
    exists d :: d in s && SettlesOn(pairs, d, c)
  }

  lemma Settler(pairs: Pairs, s: set<string>, c: string) returns (d: string)
    requires HasSettler(pairs, s, c)
    ensures d in s && SettlesOn(pairs, d, c)
  {
    d :| d in s && SettlesOn(pairs, d, c);
  }

  lemma {:induction false} WalkUp(pairs: Pairs, s: set<string>, n: nat) returns (p: seq<string>)
    requires s != {} && forall c :: c in s ==> HasSettler(pairs, s, c)
    ensures |p| == n + 1 && Upstream(pairs, p) && forall i :: 0 <= i < |p| ==> p[i] in s
  {
    hide HasSettler;
    if n == 0 {
      var c :| c in s;
      p := [c];
    } else {
      var q := WalkUp(pairs, s, n - 1);
      assert HasSettler(pairs, s, q[n - 1]);
      var d := Settler(pairs, s, q[n - 1]);
      p := q + [d];
    }
  }

  lemma {:induction false} HopDown(pairs: Pairs, p: seq<string>, i: nat, j: nat)
    requires i <= j < |p| && Upstream(pairs, p)
    ensures Hop(pairs, p[j], j - i) == Some(p[i])
  {
    if i < j {
      assert SettlesOn(pairs, p[j - 1 + 1], p[j - 1]);
      HopDown(pairs, p, i, j - 1);
    }
  }

  lemma {:induction false} Distinct(p: seq<string>, s: set<string>)
    requires forall i, j :: 0 <= i < j < |p| ==> p[i] != p[j]
    requires forall i :: 0 <= i < |p| ==> p[i] in s
    ensures |p| <= |s|
  {
    if p != [] {
      var n := |p| - 1;
      Distinct(p[..n], s - {p[n]});
    }
  }

  /** If every chain of a finite set is settled on by one of the set, there is a cycle. */
  lemma WalkCloses(pairs: Pairs, s: set<string>)
    requires s != {} && forall c :: c in s ==> HasSettler(pairs, s, c)
    ensures !Acyclic(pairs)
  {
    hide HasSettler, Hop, Upstream;
    var p := WalkUp(pairs, s, |s|);
    if forall i, j :: 0 <= i < j < |p| ==> p[i] != p[j] {
      Distinct(p, s);
    }
    var i, j :| 0 <= i < j < |p| && p[i] == p[j];
    HopDown(pairs, p, i, j);
    assert Hop(pairs, p[j], j - i) == Some(p[j]);
  }

  /** So without cycles some chain is settled on by none of the others. */
  lemma SomeSource(pairs: Pairs, s: set<string>) returns (c: string)
    requires Acyclic(pairs) && s != {}
    ensures c in s && !HasSettler(pairs, s, c)
  {
    hide HasSettler, Acyclic;
    if forall c :: c in s ==> HasSettler(pairs, s, c) {
      WalkCloses(pairs, s);
    }
    c :| c in s && !HasSettler(pairs, s, c);
  }

  lemma {:induction false} FilterNonempty(xs: seq<Event>, keep: Event -> bool, e: Event)
    requires e in xs && keep(e)
    ensures Filter(xs, keep) != []
  {
    FilterMembers(xs, keep);
    assert e in Filter(xs, keep);
  }

  /** Each group keeps an event: one on a chain nothing in the group settles on. */
  lemma EveryGroupKeepsOne(pairs: Pairs, events: seq<Event>, key: string)
    requires Acyclic(pairs) && key in Keys(events, KeyOf)
    ensures Select(Filter(events, Stays(pairs, events)), KeyOf, key) != []
    ensures Select(Kept(pairs, events), KeyOf, key) == Select(Filter(events, Stays(pairs, events)), KeyOf, key)
  {
    hide KeyOf, Acyclic, HasSettler, Removes;
    var group, keys := Select(events, KeyOf, key), Keys(events, KeyOf);
    SelectKeyed(events, KeyOf, key);
    SelectMembers(events, KeyOf, key);
    assert group[0] in group && group[0].chainId in Chains(group);
    var c := SomeSource(pairs, Chains(group));
    var e :| e in group && e.chainId == c;
    SourceStays(pairs, events, group, e);
    SelectFilter(events, KeyOf, key, Stays(pairs, events));
    FilterNonempty(group, Stays(pairs, events), e);
    KeysAre(events, KeyOf);
    FlattenSelect(Filter(events, Stays(pairs, events)), KeyOf, keys, key);
  }

  lemma SourceStays(pairs: Pairs, events: seq<Event>, group: seq<Event>, e: Event)
    requires group == Select(events, KeyOf, KeyOf(e)) && !HasSettler(pairs, Chains(group), e.chainId)
    ensures !Removes(pairs, events, e)
  {
    hide KeyOf;
    SelectMembers(events, KeyOf, KeyOf(e));
    forall f | f in events && KeyOf(f) == KeyOf(e)
      ensures !SettlesOn(pairs, f.chainId, e.chainId)
    {
      assert f in group && f.chainId in Chains(group);
    }
  }

  // ---------------------------------------------------------------- idempotence

  /** Running the pass on what it kept keeps everything, in the same order. */
  lemma Idempotent(pairs: Pairs, events: seq<Event>)
    requires Acyclic(pairs)
    ensures Kept(pairs, Kept(pairs, events)) == Kept(pairs, events) && Removed(pairs, Kept(pairs, events)) == []
  {
    hide KeyOf, Acyclic, Removes, Artifact;
    var kept, keys, stay := Kept(pairs, events), Keys(events, KeyOf), Filter(events, Stays(pairs, events));
    KeysAre(events, KeyOf);
    forall i | 0 <= i < |keys|
      ensures keys[i] in Keys(stay, KeyOf)
    {
      EveryGroupKeepsOne(pairs, events, keys[i]);
      SelectKeyed(stay, KeyOf, keys[i]);
    }
    FlattenKeys(stay, KeyOf, keys);
    assert Keys(kept, KeyOf) == keys;
    forall e | e in kept
      ensures !Removes(pairs, kept, e)
    {
      KeptStays(pairs, events, e);
    }
    FilterAll(kept, Stays(pairs, kept));
    FilterNone(kept, Goes(pairs, kept));
    forall i | 0 <= i < |keys|
      ensures Select(kept, KeyOf, keys[i]) == Select(stay, KeyOf, keys[i])
    {
      EveryGroupKeepsOne(pairs, events, keys[i]);
    }
    FlattenCongruent(kept, stay, KeyOf, keys);
    FlattenEmpty(keys);
  }

  lemma {:induction false} FlattenEmpty(keys: seq<string>)
    ensures Flatten([], KeyOf, keys) == []
  {
    if keys != [] {
      FlattenEmpty(keys[..|keys| - 1]);
    }
  }

  lemma KeptStays(pairs: Pairs, events: seq<Event>, e: Event)
    requires Acyclic(pairs) && e in Kept(pairs, events)
    ensures !Removes(pairs, Kept(pairs, events), e)
  {
    hide KeyOf, Acyclic, Kept;
    RemovedIffArtifact(pairs, events, e);
    forall f | f in Kept(pairs, events) && KeyOf(f) == KeyOf(e)
      ensures !SettlesOn(pairs, f.chainId, e.chainId)
    {
      RemovedIffArtifact(pairs, events, f);
    }
  }

  // ---------------------------------------------------------------- cycles

  lemma {:induction false} HopStep(pairs: Pairs, c: string, i: nat)
    requires Hop(pairs, c, i + 1).Some?
    ensures Hop(pairs, c, i).Some? && SettlesOn(pairs, Hop(pairs, c, i).value, Hop(pairs, c, i + 1).value)
    decreases i
  {
    if i > 0 {
      HopStep(pairs, pairs[c], i - 1);
    }
  }

  lemma {:induction false} HopPrefix(pairs: Pairs, c: string, i: nat, n: nat)
    requires i <= n && Hop(pairs, c, n).Some?
    ensures Hop(pairs, c, i).Some?
    decreases n - i
  {
    if i < n {
      HopPrefix(pairs, c, i + 1, n);
      HopStep(pairs, c, i);
    }
  }

  /** One transfer seen on a chain. */
  function SeenOn(chain: string): Event {
    Event(chain, "", "", "", "", "")
  }

  lemma {:induction false} OneGroup(events: seq<Event>)
    requires forall i :: 0 <= i < |events| ==> KeyOf(events[i]) == KeyOf(SeenOn(""))
    ensures Select(events, KeyOf, KeyOf(SeenOn(""))) == events
  {
    hide KeyOf;
    if events != [] {
      OneGroup(events[..|events| - 1]);
      assert events == events[..|events| - 1] + [events[|events| - 1]];
    }
  }

  /** One transfer, seen on each chain of a walk. */
  ghost predicate SeenAlong(pairs: Pairs, c: string, n: nat, events: seq<Event>) {
    |events| == n + 1 && forall i: nat :: i <= n ==> Hop(pairs, c, i).Some? && events[i] == SeenOn(Hop(pairs, c, i).value)
  }

  lemma SeenAlongExists(pairs: Pairs, c: string, n: nat) returns (events: seq<Event>)
    requires Hop(pairs, c, n).Some?
    ensures SeenAlong(pairs, c, n, events)
  {
    hide Hop;
    forall i | 0 <= i <= n
      ensures Hop(pairs, c, i).Some?
    {
      HopPrefix(pairs, c, i, n);
    }
    events := seq(n + 1, i requires 0 <= i <= n => SeenOn(Hop(pairs, c, i).value));
  }

  lemma SeenInOneGroup(pairs: Pairs, c: string, n: nat, events: seq<Event>)
    requires SeenAlong(pairs, c, n, events)
    ensures forall i :: 0 <= i <= n ==> KeyOf(events[i]) == KeyOf(SeenOn(""))
    ensures Select(events, KeyOf, KeyOf(SeenOn(""))) == events && KeyOf(SeenOn("")) in Keys(events, KeyOf)
  {
    hide Hop, KeyOf;
    forall i | 0 <= i <= n
      ensures KeyOf(events[i]) == KeyOf(SeenOn(""))
    {
      assert events[i] == SeenOn(Hop(pairs, c, i).value);
      SameKey(events[i].chainId);
    }
    OneGroup(events);
    KeysAre(events, KeyOf);
    assert KeyOf(events[0]) in Keys(events, KeyOf);
  }

  lemma CycleMemberGoes(pairs: Pairs, c: string, n: nat, events: seq<Event>, i: nat)
    requires n >= 1 && Hop(pairs, c, n) == Some(c) && SeenAlong(pairs, c, n, events) && i <= n
    ensures Removes(pairs, events, events[i])
  {
    hide Hop, KeyOf;
    SeenInOneGroup(pairs, c, n, events);
    HopStart(pairs, c);
    var j := if i == 0 then n - 1 else i - 1;
    HopStep(pairs, c, j);
    assert events[j] in events && SettlesOn(pairs, events[j].chainId, events[i].chainId);
  }

  /** On a cycle, one transfer seen on each of its chains is dropped altogether. */
  lemma CycleDropsAll(pairs: Pairs, c: string, n: nat) returns (events: seq<Event>)
    requires n >= 1 && Hop(pairs, c, n) == Some(c)
    ensures KeyOf(SeenOn("")) in Keys(events, KeyOf) && Kept(pairs, events) == []
  {
    hide Hop, KeyOf, Removes;
    events := SeenAlongExists(pairs, c, n);
    SeenInOneGroup(pairs, c, n, events);
    forall i | 0 <= i < |events|
      ensures Removes(pairs, events, events[i])
    {
      CycleMemberGoes(pairs, c, n, events, i);
    }
    FilterNone(events, Stays(pairs, events));
    FlattenEmpty(Keys(events, KeyOf));
  }

  lemma SameKey(chain: string)
    ensures KeyOf(SeenOn(chain)) == KeyOf(SeenOn(""))
  {
  }

  lemma HopStart(pairs: Pairs, c: string)
    ensures Hop(pairs, c, 0) == Some(c)
  {
  }

  ghost predicate KeepsEveryTransfer(pairs: Pairs) {
    forall events, key :: key in Keys(events, KeyOf) ==> Select(Kept(pairs, events), KeyOf, key) != []
  }

  /** No transfer disappears, whatever the events, exactly when the settlement map has no cycle. */
  lemma AcyclicExactly(pairs: Pairs)
    ensures KeepsEveryTransfer(pairs) <==> Acyclic(pairs)
  {
    hide KeyOf, Kept, Hop;
    if Acyclic(pairs) {
      forall events, key | key in Keys(events, KeyOf)
        ensures Select(Kept(pairs, events), KeyOf, key) != []
      {
        EveryGroupKeepsOne(pairs, events, key);
      }
    } else {
      var c, n: nat :| n >= 1 && Hop(pairs, c, n) == Some(c);
      var events := CycleDropsAll(pairs, c, n);
      assert Select(Kept(pairs, events), KeyOf, KeyOf(SeenOn(""))) == [];
    }
  }
}
