/** The pipeline and the ledger together: what a whole run leaves on the blockchain. */
module Delivery {
  import opened Event
  import opened Crypto
  import opened Integrity
  import opened JsonReader
  import opened Ledger
  import Pipeline

  /** A produced event is hashed as captured, and the gateway and the chaincode read its text
      back unchanged. */
  predicate Produced(sha: Digest, js: Json, ev: Event) { Genuine(sha, ev) && Understood(js, ev) }

  /** Every genuine event without backslashes and control characters is such an event. */
  lemma PlainProduced(sha: Digest, ev: Event)
    requires Genuine(sha, ev)
    ensures Produced(sha, STANDARD, ev) <==> PlainEvent(ev)
  {
    UnderstoodIffPlain(ev);
  }

  lemma {:induction false} RepeatedCovers(evs: seq<Event>, counts: seq<nat>, i: nat)
    requires |evs| == |counts| && i < |evs| && counts[i] > 0
    ensures evs[i] in Pipeline.Repeated(evs, counts)
  {
    var n := |evs| - 1;
    if i < n {
      RepeatedCovers(evs[..n], counts[..n], i);
    } else {
      var copies := Pipeline.Copies(evs[n], counts[n]);
      assert copies[0] in copies;
    }
  }

  /** However the threads, the signal and the network behave, the ledger after any run holds
      exactly the posts that committed, one entry per distinct event, however often each was
      resent, and the listing names exactly these events.  If the join of an uninterrupted run
      returns and no event exhausted its attempts, these are exactly the locally logged events.
      All unless two posted events collide. */
  lemma {:induction false} LedgerMatchesLog(
    sha: Digest, js: Json, size: nat, run: seq<Pipeline.Action>, keys: seq<string>)
    requires size > 0 && Pipeline.ValidRun(Pipeline.Start(size), run)
    requires forall a | a in run && a.Produce? :: Produced(sha, js, a.ev)
    requires NoCollision(sha, Pipeline.Final(Pipeline.Start(size), run).commits)
    requires Range(Committed(js, Pipeline.Final(Pipeline.Start(size), run).commits), keys)
    ensures var s := Pipeline.Final(Pipeline.Start(size), run);
            var state := Committed(js, s.commits);
            var l := Listed(js, state, keys);
            && Holds(js, state, s.commits)
            && Distinct(l) == Distinct(s.commits) && |l| == |Distinct(s.commits)|
            && (s.main.Joined? && !s.interrupted && (forall i | 0 <= i < |s.counts| :: s.counts[i] > 0) ==>
                  Distinct(s.commits) == Distinct(s.log))
  {
    hide Genuine, Understood, NoCollision, Holds, Range, Listed;
    var s := Pipeline.Final(Pipeline.Start(size), run);
    Pipeline.CommitsAreProduced(size, run, ev => Produced(sha, js, ev));
    CommittedListed(sha, js, s.commits, keys);
    if s.main.Joined? && !s.interrupted && forall i | 0 <= i < |s.counts| :: s.counts[i] > 0 {
      AllDelivered(size, run);
    }
  }

  lemma {:induction false} CommittedListed(sha: Digest, js: Json, evs: seq<Event>, keys: seq<string>)
    requires forall ev | ev in evs :: Produced(sha, js, ev)
    requires NoCollision(sha, evs) && Range(Committed(js, evs), keys)
    ensures var l := Listed(js, Committed(js, evs), keys);
            Holds(js, Committed(js, evs), evs) && Distinct(l) == Distinct(evs) && |l| == |Distinct(evs)|
  {
    CommittedIsSubmitted(sha, js, evs);
    hide Genuine, NoCollision;
    LedgerHolds(sha, js, evs);
    TotalCountsDistinct(sha, js, evs, keys);
    ListedEvents(js, Committed(js, evs), evs, keys);
    assert (set ev | ev in evs && ev.hash in keys) == Distinct(evs);
  }

  /** After any run the gateway's verification disputes the whole ledger. */
  lemma {:induction false} RunDisputed(sha: Digest, js: Json, size: nat, run: seq<Pipeline.Action>, keys: seq<string>)
    requires size > 0 && Pipeline.ValidRun(Pipeline.Start(size), run)
    requires forall a | a in run && a.Produce? :: Produced(sha, js, a.ev)
    requires forall a | a in run && a.Produce? :: !Collides(sha, CanonicalText(a.ev), GatewayText(a.ev))
    requires NoCollision(sha, Pipeline.Final(Pipeline.Start(size), run).commits)
    requires Range(Committed(js, Pipeline.Final(Pipeline.Start(size), run).commits), keys)
    ensures var l := Listed(js, Committed(js, Pipeline.Final(Pipeline.Start(size), run).commits), keys);
            Disputed(sha, l) == Hashes(l)
  {
    hide Genuine, Understood, NoCollision, Range, Listed, Collides, CanonicalText, GatewayText;
    var s := Pipeline.Final(Pipeline.Start(size), run);
    Pipeline.CommitsAreProduced(size, run, ev =>
      Produced(sha, js, ev) && !Collides(sha, CanonicalText(ev), GatewayText(ev)));
    CommittedIsSubmitted(sha, js, s.commits);
    UnderstoodIsFaithful(js, s.commits);
    LedgerDisputed(sha, js, s.commits, keys);
  }

  lemma UnderstoodIsFaithful(js: Json, evs: seq<Event>)
    requires forall ev | ev in evs :: Understood(js, ev)
    ensures forall ev | ev in evs :: Faithful(js, ev)
  {
  }

  lemma {:induction false} AllDelivered(size: nat, run: seq<Pipeline.Action>)
    requires size > 0 && Pipeline.ValidRun(Pipeline.Start(size), run)
    requires var s := Pipeline.Final(Pipeline.Start(size), run);
             s.main.Joined? && !s.interrupted && forall i | 0 <= i < |s.counts| :: s.counts[i] > 0
    ensures var s := Pipeline.Final(Pipeline.Start(size), run);
            Distinct(s.commits) == Distinct(s.log)
  {
    var s := Pipeline.Final(Pipeline.Start(size), run);
    Pipeline.StartInv(size);
    Pipeline.RunInv(Pipeline.Start(size), run);
    Pipeline.Conservation(size, run);
    Pipeline.JoinedMeansDelivered(size, run);
    assert s.commits == Pipeline.Repeated(s.finished, s.counts);
    Pipeline.RepeatedFrom(s.finished, s.counts);
    forall ev | ev in s.log ensures ev in s.commits {
      var i :| 0 <= i < |s.log| && s.log[i] == ev;
      RepeatedCovers(s.finished, s.counts, i);
    }
  }
}
