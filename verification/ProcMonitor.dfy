/** The /proc poller (proc_monitor.c): growable pid sets, and the rounds that report every
    pid of a listing that the previous snapshot lacks. */
module ProcMonitor {

  const FIRST_CAPACITY: nat := 1024

  function NextCapacity(capacity: nat): nat { if capacity > 0 then capacity * 2 else FIRST_CAPACITY }

  /** The pids kept, and the capacity, after adding the first `n` of a listing; `grows(i)`
      says whether memory for a larger array is available when the i-th is added. */
  function Adding(listing: seq<int>, grows: nat -> bool, n: nat): (r: (seq<int>, nat))
    requires n <= |listing|
    ensures |r.0| <= n
  {
    if n == 0 then ([], 0)
    else
      var (kept, capacity) := Adding(listing, grows, n - 1);
      if |kept| < capacity then (kept + [listing[n - 1]], capacity)
      else if grows(n - 1) then (kept + [listing[n - 1]], NextCapacity(capacity))
      else (kept, capacity)
  }

  function Kept(listing: seq<int>, grows: nat -> bool): seq<int> { Adding(listing, grows, |listing|).0 }

  /** The pids of a listing that are not in the previous snapshot, in listing order. */
  function Fresh(listing: seq<int>, previous: seq<int>): seq<int>
  {
    if listing == [] then []
    else
      var n := |listing| - 1;
      Fresh(listing[..n], previous) + if listing[n] in previous then [] else [listing[n]]
  }

  /** The elements at the given positions. */
  function Picked(listing: seq<int>, ix: seq<nat>): (r: seq<int>)
    requires forall k | 0 <= k < |ix| :: ix[k] < |listing|
    ensures |r| == |ix| && forall k | 0 <= k < |ix| :: r[k] == listing[ix[k]]
  {
    seq(|ix|, k requires 0 <= k < |ix| => listing[ix[k]])
  }

  /** Increasing positions, exactly those whose pid the previous snapshot lacks. */
  predicate NewPositions(listing: seq<int>, previous: seq<int>, ix: seq<nat>)
  {
    && (forall j, k | 0 <= j < k < |ix| :: ix[j] < ix[k])
    && (forall k | 0 <= k < |ix| :: ix[k] < |listing| && listing[ix[k]] !in previous)
    && (forall i | 0 <= i < |listing| && listing[i] !in previous :: i in ix)
  }

  /** So the new pids come once for each place in the listing, in its order. */
  lemma {:induction false} FreshPositions(listing: seq<int>, previous: seq<int>) returns (ix: seq<nat>)
    ensures NewPositions(listing, previous, ix) && Fresh(listing, previous) == Picked(listing, ix)
  {
    ix := [];
    if listing != [] {
      var n := |listing| - 1;
      var before := FreshPositions(listing[..n], previous);
      hide NewPositions, Picked;
      PickedLonger(listing, previous, before);
      if listing[n] in previous {
        ix := before;
      } else {
        ix := before + [n];
      }
    }
  }

  /** One element more leaves the positions, or adds its own. */
  lemma PickedLonger(listing: seq<int>, previous: seq<int>, ix: seq<nat>)
    requires listing != [] && NewPositions(listing[..|listing| - 1], previous, ix)
    ensures var n: nat := |listing| - 1;
            var more := if listing[n] in previous then ix else ix + [n];
            && NewPositions(listing, previous, more)
            && Picked(listing, more) ==
                 Picked(listing[..n], ix) + if listing[n] in previous then [] else [listing[n]]
  {
    var n: nat := |listing| - 1;
    PickedAppend(listing, ix, n);
    PositionsLonger(listing, previous, ix);
    hide NewPositions, Picked;
  }

  lemma PickedAppend(listing: seq<int>, ix: seq<nat>, n: nat)
    requires n < |listing| && forall k | 0 <= k < |ix| :: ix[k] < n
    ensures Picked(listing, ix) == Picked(listing[..n], ix)
    ensures Picked(listing, ix + [n]) == Picked(listing[..n], ix) + [listing[n]]
  {
  }

  lemma PositionsLonger(listing: seq<int>, previous: seq<int>, ix: seq<nat>)
    requires listing != [] && NewPositions(listing[..|listing| - 1], previous, ix)
    ensures var n: nat := |listing| - 1;
            NewPositions(listing, previous, if listing[n] in previous then ix else ix + [n])
  {
    var n: nat := |listing| - 1;
    var more := if listing[n] in previous then ix else ix + [n];
    forall k | 0 <= k < |more| ensures more[k] < |listing| && listing[more[k]] !in previous {
      if k < |ix| { assert listing[..n][ix[k]] == listing[ix[k]]; }
    }
    forall i | 0 <= i < |listing| && listing[i] !in previous ensures i in more {
      if i < n { assert listing[..n][i] == listing[i]; assert i in ix; }
    }
  }

  /** The pids at the given positions of the listings after the first, round by round. */
  function PickedInRounds(listings: seq<seq<int>>, places: seq<seq<nat>>): seq<int>
    requires |places| < |listings|
    requires forall r, k | 0 <= r < |places| && 0 <= k < |places[r]| :: places[r][k] < |listings[r + 1]|
  {
    if places == [] then []
    else
      var n := |places| - 1;
      PickedInRounds(listings, places[..n]) + Picked(listings[n + 1], places[n])
  }

  /** In every round the positions new against the snapshot that the round before left. */
  predicate NewInRounds(listings: seq<seq<int>>, grows: nat -> nat -> bool, places: seq<seq<nat>>)
    requires |places| < |listings|
  {
    forall r | 0 <= r < |places| :: NewPositions(listings[r + 1], Kept(listings[r], grows(r)), places[r])
  }

  lemma {:induction false} CapturedPositions(listings: seq<seq<int>>, grows: nat -> nat -> bool, r: nat)
    returns (places: seq<seq<nat>>)
    requires r < |listings|
    ensures |places| == r && NewInRounds(listings, grows, places)
    ensures Captured(listings, grows, r) == PickedInRounds(listings, places)
  {
    places := [];
    if r > 0 {
      var before := CapturedPositions(listings, grows, r - 1);
      var ix := FreshPositions(listings[r], Kept(listings[r - 1], grows(r - 1)));
      places := before + [ix];
      assert places[..r - 1] == before;
    }
  }

  /** Some increasing positions, exactly the new ones, have these pids. */
  ghost predicate InListingOrder(listing: seq<int>, previous: seq<int>, reported: seq<int>)
  {
    exists ix: seq<nat> :: NewPositions(listing, previous, ix) && reported == Picked(listing, ix)
  }

  ghost predicate InRoundOrder(listings: seq<seq<int>>, grows: nat -> nat -> bool, captured: seq<int>)
    requires listings != []
  {
    exists places: seq<seq<nat>> ::
      && |places| == |listings| - 1 && NewInRounds(listings, grows, places)
      && captured == PickedInRounds(listings, places)
  }

  lemma {:induction false} FreshInOrder(listing: seq<int>, previous: seq<int>)
    ensures InListingOrder(listing, previous, Fresh(listing, previous))
  {
    var ix := FreshPositions(listing, previous);
  }

  lemma {:induction false} CapturedInOrder(listings: seq<seq<int>>, grows: nat -> nat -> bool)
    requires listings != []
    ensures InRoundOrder(listings, grows, Captured(listings, grows, |listings| - 1))
  {
    var places := CapturedPositions(listings, grows, |listings| - 1);
  }

  /** The captures of the rounds up to and including round `r`; round 0 only takes a snapshot. */
  function Captured(listings: seq<seq<int>>, grows: nat -> nat -> bool, r: nat): seq<int>
    requires r < |listings|
  {
    if r == 0 then []
    else Captured(listings, grows, r - 1) + Fresh(listings[r], Kept(listings[r - 1], grows(r - 1)))
  }

  class PidSet {
    var pids: array<int>
    var count: nat
    var capacity: nat
    ghost var copied: nat    // elements moved by all reallocations so far

    ghost predicate Valid()
      reads this
    {
      && count <= capacity == pids.Length
      && (capacity == 0 ==> copied == 0)
      && (capacity > 0 ==> capacity >= FIRST_CAPACITY && copied == capacity - FIRST_CAPACITY)
      && (capacity > FIRST_CAPACITY ==> 2 * count > capacity)
    }

    function Contents(): seq<int>
      requires Valid()
      reads this, pids
    {
      pids[..count]
    }

    /** A zeroed set: no array yet. */
    constructor ()
      ensures Valid() && fresh(pids) && Contents() == [] && capacity == 0
    {
      pids := new int[0];
      count, capacity, copied := 0, 0, 0;
    }

    method Contains(pid: int) returns (found: bool)
      requires Valid()
      ensures found <==> pid in Contents()
    {
      var i := 0;
      while i < count
        invariant 0 <= i <= count
        invariant pid !in pids[..i]
      {
        if pids[i] == pid { return true; }
        i := i + 1;
      }
      return false;
    }

    /** Adds a pid, doubling the array when it is full; without memory for that, nothing happens. */
    method Add(pid: int, memory: bool)
      requires Valid()
      modifies this, pids
      ensures Valid() && (pids == old(pids) || fresh(pids))
      ensures (Contents(), capacity) ==
              if old(count) < old(capacity) then (old(Contents()) + [pid], old(capacity))
              else if memory then (old(Contents()) + [pid], NextCapacity(old(capacity)))
              else (old(Contents()), old(capacity))
      ensures capacity == old(capacity) || capacity == if old(capacity) == 0 then 1024 else 2 * old(capacity)
    {
      ghost var kept := Contents();
      if count >= capacity {
        if !memory { return; }
        var larger := new int[NextCapacity(capacity)];
        forall i | 0 <= i < count {
          larger[i] := pids[i];
        }
        copied := copied + count;
        assert larger[..count] == kept;
        pids, capacity := larger, NextCapacity(capacity);
      }
      assert pids[..count] == kept;
      pids[count] := pid;
      count := count + 1;
      assert pids[..count] == kept + [pid];
    }
  }

  /** One pass over a listing: the new snapshot, and the pids reported against the old one.
      Doubling keeps the copying below twice the number of pids held. */
  method Round(previous: PidSet, listing: seq<int>, grows: nat -> bool) returns (current: PidSet, reported: seq<int>)
    requires previous.Valid()
    ensures current.Valid() && fresh(current) && fresh(current.pids)
    ensures current.Contents() == Kept(listing, grows)
    ensures current.copied == 0 || current.copied < 2 * |current.Contents()|
    ensures reported == Fresh(listing, previous.Contents())
    ensures InListingOrder(listing, previous.Contents(), reported)
  {
    hide InListingOrder;
    current := new PidSet();
    reported := [];
    var i := 0;
    while i < |listing|
      invariant 0 <= i <= |listing|
      invariant current.Valid() && fresh(current) && fresh(current.pids) && previous.Valid()
      invariant (current.Contents(), current.capacity) == Adding(listing, grows, i)
      invariant reported == Fresh(listing[..i], previous.Contents())
    {
      current.Add(listing[i], grows(i));
      var known := previous.Contains(listing[i]);
      assert listing[..i + 1][..i] == listing[..i];
      if !known {
        reported := reported + [listing[i]];
      }
      i := i + 1;
    }
    assert listing[..|listing|] == listing;
    FreshInOrder(listing, previous.Contents());
  }

  /** `proc_monitor_start` over the listings it gets to see. */
  method Start(listings: seq<seq<int>>, grows: nat -> nat -> bool) returns (captured: seq<int>)
    requires listings != []
    ensures captured == Captured(listings, grows, |listings| - 1)
    ensures InRoundOrder(listings, grows, captured)
  {
    hide InRoundOrder, InListingOrder, Fresh;
    var none := new PidSet();
    var snapshot, _ := Round(none, listings[0], grows(0));
    captured := [];
    var r := 1;
    while r < |listings|
      invariant 1 <= r <= |listings| && snapshot.Valid()
      invariant snapshot.Contents() == Kept(listings[r - 1], grows(r - 1))
      invariant captured == Captured(listings, grows, r - 1)
    {
      var current, reported := Round(snapshot, listings[r], grows(r));
      captured := captured + reported;
      snapshot := current;
      r := r + 1;
    }
    CapturedInOrder(listings, grows);
  }

  // --- what is reported ---------------------------------------------------------------------

  lemma {:induction false} AllKept(listing: seq<int>, grows: nat -> bool, n: nat)
    requires n <= |listing| && forall i: nat :: grows(i)
    ensures Adding(listing, grows, n).0 == listing[..n]
  {
    if n > 0 {
      AllKept(listing, grows, n - 1);
      assert listing[..n] == listing[..n - 1] + [listing[n - 1]];
    }
  }

  lemma {:induction false} KeptAreListed(listing: seq<int>, grows: nat -> bool, n: nat)
    requires n <= |listing|
    ensures forall pid | pid in Adding(listing, grows, n).0 :: pid in listing
  {
    if n > 0 {
      KeptAreListed(listing, grows, n - 1);
    }
  }

  lemma {:induction false} FreshMember(listing: seq<int>, previous: seq<int>, pid: int)
    ensures pid in Fresh(listing, previous) <==> pid in listing && pid !in previous
  {
    if listing != [] {
      var n := |listing| - 1;
      FreshMember(listing[..n], previous, pid);
      assert listing == listing[..n] + [listing[n]];
    }
  }

  /** The difference of consecutive listings, over all rounds up to `r`. */
  function Differences(listings: seq<seq<int>>, r: nat): seq<int>
    requires r < |listings|
  {
    if r == 0 then [] else Differences(listings, r - 1) + Fresh(listings[r], listings[r - 1])
  }

  predicate NewAgainstLast(listings: seq<seq<int>>, places: seq<seq<nat>>)
    requires |places| < |listings|
  {
    forall r | 0 <= r < |places| :: NewPositions(listings[r + 1], listings[r], places[r])
  }

  lemma AllMemory(listing: seq<int>, grows: nat -> bool)
    requires forall i: nat :: grows(i)
    ensures Kept(listing, grows) == listing
  {
    AllKept(listing, grows, |listing|);
    assert listing[..|listing|] == listing;
  }

  lemma {:induction false} SameDifferences(listings: seq<seq<int>>, grows: nat -> nat -> bool, r: nat)
    requires r < |listings| && forall k: nat | k < r :: Kept(listings[k], grows(k)) == listings[k]
    ensures Captured(listings, grows, r) == Differences(listings, r)
  {
    if r > 0 {
      SameDifferences(listings, grows, r - 1);
    }
  }

  /** With memory to spare the captures are exactly the differences of consecutive listings over
      any number of rounds: the pids at the positions that the listing before lacks, in order. */
  lemma CapturesAreDifferences(listings: seq<seq<int>>, grows: nat -> nat -> bool, r: nat)
    returns (places: seq<seq<nat>>)
    requires r < |listings| && forall k: nat, i: nat :: grows(k)(i)
    ensures Captured(listings, grows, r) == Differences(listings, r)
    ensures |places| == r && NewAgainstLast(listings, places)
    ensures Captured(listings, grows, r) == PickedInRounds(listings, places)
  {
    forall k: nat | k < r ensures Kept(listings[k], grows(k)) == listings[k] {
      AllMemory(listings[k], grows(k));
    }
    hide Kept;
    SameDifferences(listings, grows, r);
    places := CapturedPositions(listings, grows, r);
    hide NewPositions, Captured, PickedInRounds;
  }

  /** Whatever allocations fail, no new pid is missed in its round; what is reported besides
      is a listed pid that the incomplete snapshot had dropped. */
  lemma NoNewPidMissed(listings: seq<seq<int>>, grows: nat -> nat -> bool, r: nat, pid: int)
    requires 0 < r < |listings|
    ensures var round := Fresh(listings[r], Kept(listings[r - 1], grows(r - 1)));
            && Captured(listings, grows, r) == Captured(listings, grows, r - 1) + round
            && (pid in listings[r] && pid !in listings[r - 1] ==> pid in round)
            && (pid in round ==> pid in listings[r] && pid !in Kept(listings[r - 1], grows(r - 1)))
  {
    FreshMember(listings[r], Kept(listings[r - 1], grows(r - 1)), pid);
    KeptAreListed(listings[r - 1], grows(r - 1), |listings[r - 1]|);
  }
}
