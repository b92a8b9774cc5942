/** When a keeper's tick goes through, and what stops it. */
module TickCompletion {
  import opened Wrappers
  import opened DocStore
  import opened Bookkeeping
  import Lease

  /** No eligible bot of the visits has a pass that fails. */
  predicate NoneAborts(snapshot: map<string, Doc>, delegate: string, slip: nat, visits: seq<Visit>) {
    forall i :: 0 <= i < |visits| && visits[i].id in snapshot && Eligible(snapshot[visits[i].id], delegate) ==>
                  RunBot(snapshot[visits[i].id], slip, visits[i].chain).Done?
  }

  /** The bots of a vault are all taken, one after the other, unless the pass of an eligible one fails. */
  lemma {:induction false} VisitsGoThroughIff(b: Books, snapshot: map<string, Doc>, delegate: string, vault: string,
                                              slip: nat, visits: seq<Visit>)
    ensures VisitBots(b, snapshot, delegate, vault, slip, visits).ok <==> NoneAborts(snapshot, delegate, slip, visits)
    decreases |visits|
  {
    if visits == [] {
    } else {
      var p := VisitBot(b, snapshot, delegate, vault, slip, visits[0]);
      VisitsGoThroughIff(p.books, snapshot, delegate, vault, slip, visits[1..]);
      assert NoneAborts(snapshot, delegate, slip, visits) <==> p.ok && NoneAborts(snapshot, delegate, slip, visits[1..])
      by {
        assert forall i :: 1 <= i < |visits| ==> visits[i] == visits[1..][i - 1];
      }
    }
  }

  /** A vault with no bot to run, a bad address or a foreign delegate is passed over; an unreadable one is not. */
  predicate GoesThrough(snapshot: map<string, Doc>, delegate: string, g: Group) {
    AnyEligible(snapshot, delegate, g.visits) ==>
      match g.gate
      case BadAddress => true
      case FetchFails => false
      case DelegateMismatch => true
      case Open(slip) => NoneAborts(snapshot, delegate, slip, g.visits)
  }

  lemma {:induction false} GroupsGoThroughIff(b: Books, snapshot: map<string, Doc>, delegate: string,
                                              groups: seq<Group>)
    ensures RunGroups(b, snapshot, delegate, groups).ok
            <==> forall k :: 0 <= k < |groups| ==> GoesThrough(snapshot, delegate, groups[k])
    decreases |groups|
  {
    if groups == [] {
    } else {
      var g := groups[0];
      if g.gate.Open? {
        VisitsGoThroughIff(b, snapshot, delegate, g.vault, g.gate.defaultSlip, g.visits);
      }
      var p := RunGroup(b, snapshot, delegate, g);
      assert p.ok <==> GoesThrough(snapshot, delegate, g);
      GroupsGoThroughIff(p.books, snapshot, delegate, groups[1..]);
      assert forall k :: 1 <= k < |groups| ==> groups[k] == groups[1..][k - 1];
    }
  }

  /** Every bot of a group that was collected is to be run, and there is at least one. */
  lemma CollectedIsEligible(snapshot: map<string, Doc>, delegate: string, groups: seq<Group>, k: nat)
    requires Collected(snapshot, delegate, groups) && k < |groups|
    ensures groups[k].visits != []
    ensures forall i :: 0 <= i < |groups[k].visits| ==>
                          groups[k].visits[i].id in snapshot && Eligible(snapshot[groups[k].visits[i].id], delegate)
  {
    var byVault :| Grouped(snapshot, delegate, byVault) && Follows(groups, byVault);
    forall i | 0 <= i < |groups[k].visits|
      ensures groups[k].visits[i].id in snapshot && Eligible(snapshot[groups[k].visits[i].id], delegate)
    {
      assert IsListed(snapshot, delegate, groups[k].vault, byVault[groups[k].vault][i]);
    }
  }

  /**
   * A tick that gets the lock goes through exactly when every vault it collected can be read and the
   * pass of every bot of an open one succeeds, whether it swaps or not. A tick that goes through leaves
   * no lock, and one that does not get the lock does nothing.
   */
  lemma TickGoesThroughIff(b: Books, t: Tick)
    requires !Lease.Blocked(b.lock, t.holder, t.now) ==> Collected(b.bots, t.delegate, t.groups)
    ensures Lease.Blocked(b.lock, t.holder, t.now) ==> RunTick(b, t) == Progress(b, true)
    ensures !Lease.Blocked(b.lock, t.holder, t.now) ==>
              (RunTick(b, t).ok <==> forall k :: 0 <= k < |t.groups| ==> Succeeds(b, t.groups[k]))
  {
    if !Lease.Blocked(b.lock, t.holder, t.now) {
      var held := b.(lock := Lease.Acquired(b.lock, t.holder, t.now, Lease.TTL));
      GroupsGoThroughIff(held, b.bots, t.delegate, t.groups);
      forall k | 0 <= k < |t.groups|
        ensures GoesThrough(b.bots, t.delegate, t.groups[k]) <==> Succeeds(b, t.groups[k])
      {
        CollectedIsEligible(b.bots, t.delegate, t.groups, k);
        GoesThroughIfSucceeds(b, t.delegate, t.groups[k]);
      }
    }
  }

  lemma GoesThroughIfSucceeds(b: Books, delegate: string, g: Group)
    requires g.visits != []
    requires forall i :: 0 <= i < |g.visits| ==> g.visits[i].id in b.bots && Eligible(b.bots[g.visits[i].id], delegate)
    ensures GoesThrough(b.bots, delegate, g) <==> Succeeds(b, g)
  {
    assert AnyEligible(b.bots, delegate, g.visits) by {
      assert g.visits[0].id in b.bots;
    }
  }

  /** A vault that can be read and, if it is open, whose bots all have passes that succeed. */
  predicate Succeeds(b: Books, g: Group) {
    && !g.gate.FetchFails?
    && (g.gate.Open? ==>
          forall i :: 0 <= i < |g.visits| ==>
                        g.visits[i].id in b.bots
                        && RunBot(b.bots[g.visits[i].id], g.gate.defaultSlip, g.visits[i].chain).Done?)
  }
}
