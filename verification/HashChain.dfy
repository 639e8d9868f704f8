/** The hash chain over stored events: what verifyHashChain reports, and what an accepted chain proves
    (packages/event-store/src/hash-chain.ts). */
module HashChain {
  import opened Wrappers
  import Merkle

  datatype Content = Content(
    eventType: string, metadata: string, payload: string,
    streamId: string, version: int, globalPosition: int, appendedAt: string)

  /** A stored event; events of older files lack hashes. */
  datatype Stored = Stored(content: Content, hash: Option<string>, previousHash: Option<string>) {
    predicate Hashed() {
      hash.Some? && previousHash.Some?
    }
  }

  const GENESIS_HASH := "genesis"

  /** SHA-256 over text and RFC 8785 canonicalization, both left open. */
  datatype Scheme = Scheme(canonical: Content -> string, sha: string -> Merkle.Digest)

  /** Canonical JSON objects end in a brace and determine the content. */
  ghost predicate Lawful(s: Scheme) {
    && (forall c :: s.canonical(c) != "" && s.canonical(c)[|s.canonical(c)| - 1] == '}')
    && (forall c, d :: s.canonical(c) == s.canonical(d) ==> c == d)
  }

  function HashInput(s: Scheme, c: Content, previousHash: string): string {
    s.canonical(c) + previousHash
  }

  function ComputeEventHash(s: Scheme, c: Content, previousHash: string): Merkle.Digest {
    s.sha(HashInput(s, c, previousHash))
  }

  // ---------------------------------------------------------------- verification

  datatype Reason = NotContiguous | MissingHash | NotAtGenesis | PreviousHashMismatch | HashMismatch

  datatype IntegrityError = IntegrityError(position: int, reason: Reason)

  /** The last hashed event of a log. */
  function LastHashed(events: seq<Stored>): (e: Option<Stored>)
    ensures e.Some? ==> e.value.Hashed()
  {
    if events == [] then None
    else if events[|events| - 1].Hashed() then Some(events[|events| - 1])
    else LastHashed(events[..|events| - 1])
  }

  function When(c: bool, position: int, reason: Reason): seq<IntegrityError> {
    if c then [IntegrityError(position, reason)] else []
  }

  /** The faults of event e after the events of `before`. */
  function Faults(s: Scheme, before: seq<Stored>, e: Stored): seq<IntegrityError> {
    var p, last := e.content.globalPosition, LastHashed(before);
    When(before != [] && p != before[|before| - 1].content.globalPosition + 1, p, NotContiguous)
    + if !e.Hashed() then When(last.Some?, p, MissingHash)
      else
        var anchor := if last.Some? then last.value.hash.value else e.previousHash.value;
        When(last == None && e.previousHash.value != GENESIS_HASH, p, NotAtGenesis)
        + (When(e.previousHash.value != anchor, p, PreviousHashMismatch)
        + When(e.hash.value != ComputeEventHash(s, e.content, e.previousHash.value), p, HashMismatch))
  }

  function AllFaults(s: Scheme, events: seq<Stored>): seq<IntegrityError> {
    if events == [] then []
    else AllFaults(s, events[..|events| - 1]) + Faults(s, events[..|events| - 1], events[|events| - 1])
  }

  datatype Report = Report(valid: bool, lastVerifiedPosition: int, errors: seq<IntegrityError>)

  /** The body of the verification loop for one event; `before` are the events already passed. */
  method CheckEvent(s: Scheme, ghost before: seq<Stored>, e: Stored, expectedPosition: Option<int>, chainStarted: bool, anchor: string)
    returns (errors: seq<IntegrityError>)
    requires expectedPosition == if before == [] then None else Some(before[|before| - 1].content.globalPosition + 1)
    requires chainStarted <==> LastHashed(before).Some?
    requires chainStarted ==> anchor == LastHashed(before).value.hash.value
    ensures errors == Faults(s, before, e)
  {
    hide LastHashed, ComputeEventHash;
    var position := e.content.globalPosition;
    errors := [];
    if expectedPosition.Some? && position != expectedPosition.value {
      errors := errors + [IntegrityError(position, NotContiguous)];
    }
    if e.hash == None || e.previousHash == None {
      if chainStarted {
        errors := errors + [IntegrityError(position, MissingHash)];
      }
      return;
    }
    var previousHash := anchor;
    if !chainStarted {
      if e.previousHash.value != GENESIS_HASH {
        errors := errors + [IntegrityError(position, NotAtGenesis)];
      }
      previousHash := e.previousHash.value;
    }
    if e.previousHash.value != previousHash {
      errors := errors + [IntegrityError(position, PreviousHashMismatch)];
    }
    if e.hash.value != ComputeEventHash(s, e.content, e.previousHash.value) {
      errors := errors + [IntegrityError(position, HashMismatch)];
    }
  }

  /** verifyHashChain: one pass with a running previous hash. */
  method VerifyHashChain(s: Scheme, events: seq<Stored>) returns (r: Report)
    ensures r.errors == AllFaults(s, events)
    ensures r.valid <==> AllFaults(s, events) == []
    ensures r.lastVerifiedPosition == match LastHashed(events) case Some(e) => e.content.globalPosition case None => 0
  {
    hide Faults;
    var errors: seq<IntegrityError> := [];
    var lastVerifiedPosition, previousHash, chainStarted := 0, GENESIS_HASH, false;
    var expectedPosition: Option<int> := None;
    for i := 0 to |events|
      invariant errors == AllFaults(s, events[..i])
      invariant chainStarted <==> LastHashed(events[..i]).Some?
      invariant chainStarted ==> previousHash == LastHashed(events[..i]).value.hash.value
      invariant lastVerifiedPosition == match LastHashed(events[..i]) case Some(e) => e.content.globalPosition case None => 0
      invariant expectedPosition == if i == 0 then None else Some(events[i - 1].content.globalPosition + 1)
    {
      var e := events[i];
      assert events[..i + 1][..i] == events[..i];
      var faults := CheckEvent(s, events[..i], e, expectedPosition, chainStarted, previousHash);
      errors := errors + faults;
      expectedPosition := Some(e.content.globalPosition + 1);
      if e.hash.Some? && e.previousHash.Some? {
        chainStarted := true;
        previousHash := e.hash.value;
        lastVerifiedPosition := e.content.globalPosition;
      }
    }
    assert events[..|events|] == events;
    r := Report(errors == [], lastVerifiedPosition, errors);
  }

  // ---------------------------------------------------------------- what an accepted chain is

  /** The previous hash an event at the end of `before` must carry. */
  function LinkAfter(before: seq<Stored>): string {
    match LastHashed(before) case Some(e) => e.hash.value case None => GENESIS_HASH
  }

  /** One event continues an accepted log. */
  ghost predicate Continues(s: Scheme, before: seq<Stored>, e: Stored) {
    && (before != [] ==> e.content.globalPosition == before[|before| - 1].content.globalPosition + 1)
    && (LastHashed(before).Some? ==> e.Hashed())
    && (e.Hashed() ==>
         && e.previousHash == Some(LinkAfter(before))
         && e.hash == Some(ComputeEventHash(s, e.content, LinkAfter(before))))
  }

  /** Accepted logs, event by event: contiguous positions, an optional unhashed lead, and from the first
      hashed event on an unbroken chain anchored at genesis. */
  ghost predicate Verified(s: Scheme, events: seq<Stored>) {
    forall i :: 0 <= i < |events| ==> Continues(s, events[..i], events[i])
  }

  lemma ContinuesExactly(s: Scheme, before: seq<Stored>, e: Stored)
    ensures Faults(s, before, e) == [] <==> Continues(s, before, e)
  {
  }

  /** verifyHashChain accepts exactly the verified logs. */
  lemma {:induction false} AcceptsExactly(s: Scheme, events: seq<Stored>)
    ensures AllFaults(s, events) == [] <==> Verified(s, events)
  {
    hide Faults, Continues;
    if events != [] {
      var n := |events| - 1;
      AcceptsExactly(s, events[..n]);
      ContinuesExactly(s, events[..n], events[n]);
      VerifiedInit(s, events);
    }
  }

  lemma VerifiedInit(s: Scheme, events: seq<Stored>)
    requires events != []
    ensures var n := |events| - 1;
            Verified(s, events) <==> Verified(s, events[..n]) && Continues(s, events[..n], events[n])
  {
    hide Continues;
    var n := |events| - 1;
    assert forall i :: 0 <= i < n ==> events[..n][..i] == events[..i];
  }

  lemma VerifiedPrefix(s: Scheme, events: seq<Stored>, n: nat)
    requires n <= |events| && Verified(s, events)
    ensures Verified(s, events[..n])
  {
    hide Continues;
    assert forall i :: 0 <= i < n ==> events[..n][..i] == events[..i];
  }

  ghost predicate FullyHashed(events: seq<Stored>) {
    forall i :: 0 <= i < |events| ==> events[i].Hashed()
  }

  lemma LastHashedOfHashed(events: seq<Stored>)
    requires FullyHashed(events) && events != []
    ensures LastHashed(events) == Some(events[|events| - 1])
  {
  }

  /** In a fully hashed accepted log every event links to its neighbour and carries its own hash. */
  lemma Links(s: Scheme, events: seq<Stored>, i: nat)
    requires i < |events| && FullyHashed(events) && Verified(s, events)
    ensures events[i].previousHash == Some(if i == 0 then GENESIS_HASH else events[i - 1].hash.value)
    ensures events[i].hash == Some(ComputeEventHash(s, events[i].content, events[i].previousHash.value))
    ensures i > 0 ==> events[i].content.globalPosition == events[i - 1].content.globalPosition + 1
    ensures Merkle.IsSha256Hex(events[i].hash.value)
  {
    assert Continues(s, events[..i], events[i]);
    if i > 0 {
      LastHashedOfHashed(events[..i]);
    }
  }

  // ---------------------------------------------------------------- one head, one log

  lemma SplitAtLastBrace(a: string, p: string, b: string, q: string)
    requires a != "" && b != "" && a[|a| - 1] == '}' && b[|b| - 1] == '}'
    requires '}' !in p && '}' !in q && a + p == b + q
    ensures a == b && p == q
  {
    var t := a + p;
    assert t[|a| - 1] == '}' && t[|b| - 1] == '}';
    assert forall i :: |a| <= i < |t| ==> t[i] == p[i - |a|] && p[i - |a|] in p;
    assert forall i :: |b| <= i < |t| ==> t[i] == q[i - |b|] && q[i - |b|] in q;
    assert |a| == |b|;
    assert a == t[..|a|] && b == t[..|b|] && p == t[|a|..] && q == t[|b|..];
  }

  /** A link is the genesis text or a digest, so never contains a brace, and never both. */
  lemma LinkText(link: string)
    requires link == GENESIS_HASH || Merkle.IsSha256Hex(link)
    ensures '}' !in link
    ensures Merkle.IsSha256Hex(link) ==> link != GENESIS_HASH
  {
    if Merkle.IsSha256Hex(link) {
      assert forall i :: 0 <= i < |link| ==> Merkle.IsHexDigit(link[i]) && link[i] != '}';
    }
  }

  /** Walks two logs back from their heads to the first pair of hash inputs that differ. */
  function HeadConflict(s: Scheme, a: seq<Stored>, b: seq<Stored>): (string, string)
    requires a != [] && b != [] && FullyHashed(a) && FullyHashed(b)
  {
    var e, f := a[|a| - 1], b[|b| - 1];
    var x, y := HashInput(s, e.content, e.previousHash.value), HashInput(s, f.content, f.previousHash.value);
    if x != y || |a| == 1 || |b| == 1 then (x, y)
    else HeadConflict(s, a[..|a| - 1], b[..|b| - 1])
  }

  lemma HeadsMatch(s: Scheme, a: seq<Stored>, b: seq<Stored>)
    requires Lawful(s) && a != [] && b != [] && FullyHashed(a) && FullyHashed(b) && Verified(s, a) && Verified(s, b)
    requires a[|a| - 1].hash == b[|b| - 1].hash
    ensures var e, f := a[|a| - 1], b[|b| - 1];
            var x, y := HashInput(s, e.content, e.previousHash.value), HashInput(s, f.content, f.previousHash.value);
            && s.sha(x) == s.sha(y)
            && (x == y ==> e == f && (|a| == 1 <==> |b| == 1))
  {
    hide Verified, FullyHashed, Merkle.IsSha256Hex;
    var e, f := a[|a| - 1], b[|b| - 1];
    Links(s, a, |a| - 1);
    Links(s, b, |b| - 1);
    if |a| > 1 {
      Links(s, a, |a| - 2);
    }
    if |b| > 1 {
      Links(s, b, |b| - 2);
    }
    LinkText(e.previousHash.value);
    LinkText(f.previousHash.value);
    if HashInput(s, e.content, e.previousHash.value) == HashInput(s, f.content, f.previousHash.value) {
      SplitAtLastBrace(s.canonical(e.content), e.previousHash.value, s.canonical(f.content), f.previousHash.value);
    }
  }

  /** Two fully hashed, accepted, non-empty logs that end in one hash are one log -- or walking back from
      the heads yields two different hash inputs with one hash. */
  lemma {:induction false} OneHeadOneLogOrCollision(s: Scheme, a: seq<Stored>, b: seq<Stored>)
    requires Lawful(s) && a != [] && b != [] && FullyHashed(a) && FullyHashed(b) && Verified(s, a) && Verified(s, b)
    requires a[|a| - 1].hash == b[|b| - 1].hash
    ensures var (x, y) := HeadConflict(s, a, b); s.sha(x) == s.sha(y) && (x == y ==> a == b)
  {
    hide Continues, Lawful;
    var m, n := |a| - 1, |b| - 1;
    HeadsMatch(s, a, b);
    if a[m] == b[n] && m > 0 && n > 0 {
      Links(s, a, m);
      Links(s, b, n);
      VerifiedPrefix(s, a, m);
      VerifiedPrefix(s, b, n);
      OneHeadOneLogOrCollision(s, a[..m], b[..n]);
    }
    assert a == a[..m] + [a[m]] && b == b[..n] + [b[n]];
  }

  // ---------------------------------------------------------------- dropped events

  /** The events of a log at strictly increasing indices. */
  ghost predicate SubsequenceAt(sub: seq<Stored>, log: seq<Stored>, at: seq<nat>) {
    && |at| == |sub|
    && (forall j :: 0 <= j < |at| ==> at[j] < |log| && sub[j] == log[at[j]])
    && (forall j, k :: 0 <= j < k < |at| ==> at[j] < at[k])
  }

  lemma {:induction false} PositionsCount(s: Scheme, log: seq<Stored>, i: nat)
    requires i < |log| && FullyHashed(log) && Verified(s, log)
    ensures log[i].content.globalPosition == log[0].content.globalPosition + i
  {
    hide Verified, FullyHashed, Merkle.IsSha256Hex, ComputeEventHash;
    if i > 0 {
      PositionsCount(s, log, i - 1);
      Links(s, log, i);
    }
  }

  /** A subsequence of a fully hashed accepted log is itself accepted exactly when it is a prefix: any
      dropped head or middle event is reported. */
  lemma SubsequenceAcceptedExactlyPrefix(s: Scheme, log: seq<Stored>, sub: seq<Stored>, at: seq<nat>)
    requires FullyHashed(log) && Verified(s, log) && SubsequenceAt(sub, log, at)
    ensures Verified(s, sub) <==> sub <= log
  {
    hide Verified, Continues;
    if sub <= log {
      assert log[..|sub|] == sub;
      VerifiedPrefix(s, log, |sub|);
    }
    if Verified(s, sub) && sub != [] {
      assert FullyHashed(sub);
      AcceptedSubsequence(s, log, sub, at);
    }
  }

  lemma AcceptedSubsequence(s: Scheme, log: seq<Stored>, sub: seq<Stored>, at: seq<nat>)
    requires FullyHashed(log) && Verified(s, log) && SubsequenceAt(sub, log, at)
    requires sub != [] && FullyHashed(sub) && Verified(s, sub)
    ensures sub <= log
  {
    hide Verified, FullyHashed, Merkle.IsSha256Hex, ComputeEventHash;
    Links(s, sub, 0);
    Links(s, log, at[0]);
    if at[0] > 0 {
      Links(s, log, at[0] - 1);
      LinkText(log[at[0]].previousHash.value);
    }
    assert at[0] == 0;
    forall j | 0 <= j < |sub|
      ensures j < |log| && sub[j] == log[j]
    {
      PositionsCount(s, sub, j);
      PositionsCount(s, log, at[j]);
      assert at[j] == j;
    }
    assert at[|sub| - 1] < |log|;
  }
}
