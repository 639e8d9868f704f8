/** What a verification report says, fault by fault, read off neighbouring events
    (packages/event-store/src/hash-chain.ts). */
module ChainFaults {
  import opened Wrappers
  import opened Grouping
  import opened HashChain

  /** The event right before i has another number than i's predecessor should. */
  predicate Gap(events: seq<Stored>, i: nat)
    requires i < |events|
  {
    i > 0 && events[i].content.globalPosition != events[i - 1].content.globalPosition + 1
  }

  /** j is the last hashed event before i. */
  ghost predicate HashedBefore(events: seq<Stored>, i: nat, j: int) {
    && 0 <= j < i <= |events| && events[j].Hashed()
    && forall k :: j < k < i ==> !events[k].Hashed()
  }

  /** What is wrong with the i-th event. */
  ghost predicate Wrong(s: Scheme, events: seq<Stored>, i: nat, reason: Reason)
    requires i < |events|
  {
    var e := events[i];
    match reason
    case NotContiguous => Gap(events, i)
    case MissingHash => !e.Hashed() && exists j :: HashedBefore(events, i, j)
    case NotAtGenesis => e.Hashed() && (forall j :: !HashedBefore(events, i, j)) && e.previousHash != Some(GENESIS_HASH)
    case PreviousHashMismatch => e.Hashed() && exists j :: HashedBefore(events, i, j) && e.previousHash != events[j].hash
    case HashMismatch => e.Hashed() && e.hash != Some(ComputeEventHash(s, e.content, e.previousHash.value))
  }

  lemma {:induction false} LastHashedAt(events: seq<Stored>, n: nat)
    requires n <= |events|
    ensures match LastHashed(events[..n])
            case None => forall j :: !HashedBefore(events, n, j)
            case Some(e) => exists j :: HashedBefore(events, n, j) && events[j] == e
  {
    if n > 0 {
      LastHashedAt(events, n - 1);
      assert events[..n][..n - 1] == events[..n - 1];
      if events[n - 1].Hashed() {
        assert HashedBefore(events, n, n - 1);
      } else if LastHashed(events[..n - 1]).Some? {
        var j :| HashedBefore(events, n - 1, j) && events[j] == LastHashed(events[..n - 1]).value;
        assert HashedBefore(events, n, j);
      } else {
        forall j
          ensures !HashedBefore(events, n, j)
        {
          assert HashedBefore(events, n, j) ==> HashedBefore(events, n - 1, j);
        }
      }
    }
  }

  lemma OneBefore(events: seq<Stored>, n: nat, j: int, k: int)
    requires HashedBefore(events, n, j) && HashedBefore(events, n, k)
    ensures j == k
  {
  }

  function Says(position: int, reason: Reason): IntegrityError -> bool {
    (e: IntegrityError) => e == IntegrityError(position, reason)
  }

  lemma WhenCount(c: bool, p: int, r: Reason, position: int, reason: Reason)
    ensures Count(When(c, p, r), Says(position, reason)) == if c && p == position && r == reason then 1 else 0
  {
    CountOne(IntegrityError(p, r), Says(position, reason));
  }

  /** The faults reported on one event: each once, exactly if it is there. */
  lemma FaultsCount(s: Scheme, events: seq<Stored>, i: nat, position: int, reason: Reason)
    requires i < |events|
    ensures Count(Faults(s, events[..i], events[i]), Says(position, reason))
         == if events[i].content.globalPosition == position && Wrong(s, events, i, reason) then 1 else 0
  {
    hide ComputeEventHash, LastHashed, Count, When;
    var e, p, last, says := events[i], events[i].content.globalPosition, LastHashed(events[..i]), Says(position, reason);
    LastHashedAt(events, i);
    if last.Some? {
      var j :| HashedBefore(events, i, j) && events[j] == last.value;
      forall k | HashedBefore(events, i, k)
        ensures k == j
      {
        OneBefore(events, i, j, k);
      }
    }
    var gap := When(i > 0 && p != events[..i][|events[..i]| - 1].content.globalPosition + 1, p, NotContiguous);
    WhenCount(i > 0 && p != events[..i][|events[..i]| - 1].content.globalPosition + 1, p, NotContiguous, position, reason);
    if !e.Hashed() {
      WhenCount(last.Some?, p, MissingHash, position, reason);
      CountConcat(gap, When(last.Some?, p, MissingHash), says);
    } else {
      var anchor := if last.Some? then last.value.hash.value else e.previousHash.value;
      var a := When(last == None && e.previousHash.value != GENESIS_HASH, p, NotAtGenesis);
      var b := When(e.previousHash.value != anchor, p, PreviousHashMismatch);
      var c := When(e.hash.value != ComputeEventHash(s, e.content, e.previousHash.value), p, HashMismatch);
      WhenCount(last == None && e.previousHash.value != GENESIS_HASH, p, NotAtGenesis, position, reason);
      WhenCount(e.previousHash.value != anchor, p, PreviousHashMismatch, position, reason);
      WhenCount(e.hash.value != ComputeEventHash(s, e.content, e.previousHash.value), p, HashMismatch, position, reason);
      CountConcat(b, c, says);
      CountConcat(a, b + c, says);
      CountConcat(gap, a + (b + c), says);
    }
  }

  /** The events at a position with a given fault. */
  ghost function WrongOnes(s: Scheme, events: seq<Stored>, n: nat, position: int, reason: Reason): set<nat>
    requires n <= |events|
  {
    set i: nat | i < n && events[i].content.globalPosition == position && Wrong(s, events, i, reason)
  }

  lemma WrongEarlier(s: Scheme, events: seq<Stored>, n: nat, i: nat, reason: Reason)
    requires i < n <= |events|
    ensures Wrong(s, events[..n], i, reason) <==> Wrong(s, events, i, reason)
  {
    hide ComputeEventHash;
    assert forall j :: HashedBefore(events[..n], i, j) <==> HashedBefore(events, i, j);
  }

  /** A report names a fault at a position as often as there are events there that have it. */
  lemma {:induction false} ReportCounts(s: Scheme, events: seq<Stored>, position: int, reason: Reason)
    ensures Count(AllFaults(s, events), Says(position, reason)) == |WrongOnes(s, events, |events|, position, reason)|
  {
    hide Faults, Wrong, Count, WrongOnes;
    if events == [] {
      NothingWrong(s, position, reason);
    } else {
      var n := |events| - 1;
      ReportCounts(s, events[..n], position, reason);
      WrongOnesSnoc(s, events, position, reason);
      FaultsCount(s, events, n, position, reason);
      CountConcat(AllFaults(s, events[..n]), Faults(s, events[..n], events[n]), Says(position, reason));
    }
  }

  lemma WrongOnesSnoc(s: Scheme, events: seq<Stored>, position: int, reason: Reason)
    requires events != []
    ensures var n := |events| - 1;
            && n !in WrongOnes(s, events[..n], n, position, reason)
            && WrongOnes(s, events, n + 1, position, reason)
               == WrongOnes(s, events[..n], n, position, reason)
                  + if events[n].content.globalPosition == position && Wrong(s, events, n, reason) then {n} else {}
  {
    hide Wrong;
    var n := |events| - 1;
    forall i: nat | i < n
      ensures Wrong(s, events[..n], i, reason) <==> Wrong(s, events, i, reason)
    {
      WrongEarlier(s, events, n, i, reason);
    }
  }

  lemma NothingWrong(s: Scheme, position: int, reason: Reason)
    ensures Count([], Says(position, reason)) == 0 && WrongOnes(s, [], 0, position, reason) == {}
  {
  }

  /** The report's last verified position is that of the last hashed event. */
  lemma LastPositionIs(events: seq<Stored>)
    ensures match LastHashed(events)
            case None => forall k :: 0 <= k < |events| ==> !events[k].Hashed()
            case Some(e) => exists j :: 0 <= j < |events| && events[j] == e && e.Hashed() && forall k :: j < k < |events| ==> !events[k].Hashed()
  {
    LastHashedAt(events, |events|);
    assert events[..|events|] == events;
    if LastHashed(events) == None {
      NoneHashed(events, |events|);
    }
  }

  lemma {:induction false} NoneHashed(events: seq<Stored>, n: nat)
    requires n <= |events| && forall j :: !HashedBefore(events, n, j)
    ensures forall k :: 0 <= k < n ==> !events[k].Hashed()
  {
    if n > 0 {
      var m: nat := n - 1;
      assert !HashedBefore(events, n, m);
      forall j
        ensures !HashedBefore(events, m, j)
      {
        assert HashedBefore(events, m, j) ==> HashedBefore(events, n, j);
      }
      NoneHashed(events, m);
    }
  }
}
