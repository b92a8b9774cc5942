/** Which bots a tick runs, read off their documents, and how creating, switching and removing them decides it. */
module BotLifecycle {
  import opened Wrappers
  import opened DocStore
  import opened Bookkeeping
  import opened BookInvariants
  import Lease

  // ---- from the fields of a document ----

  /** Not enabled, deleted, or another delegate's. */
  predicate SitsOut(bot: Doc, delegate: string) {
    || Enabled !in bot || bot[Enabled] != Bool(true)
    || (Deleted in bot && bot[Deleted] == Bool(true))
    || Delegate !in bot || bot[Delegate] != Str(delegate)
  }

  /** A bot is run by a delegate exactly when it is enabled, not deleted and names it. */
  lemma EligibleIff(bot: Doc, delegate: string)
    requires delegate != ""
    ensures Eligible(bot, delegate) <==> !SitsOut(bot, delegate)
  {}

  /** What a tick must leave of a bot that sits out. */
  ghost predicate Unchanged(b: Books, c: Books, id: string)
    requires id in b.bots
  {
    && id in c.bots && c.bots[id] == b.bots[id]
    && OrdersOf(c, id) == OrdersOf(b, id) && SentFor(c.sent, id) == SentFor(b.sent, id)
  }

  /**
   * A bot that is not enabled, is deleted or names another delegate keeps its document, orders and swaps
   * in every tick.
   */
  lemma TickSkipsBotsThatSitOut(b: Books, t: Tick, id: string)
    requires t.delegate != "" && id in b.bots && SitsOut(b.bots[id], t.delegate)
    ensures Unchanged(b, RunTick(b, t).books, id)
  {
    EligibleIff(b.bots[id], t.delegate);
    TickLeavesOthersAlone(b, t, id);
  }

  /** An enabled, undeleted bot of a delegate, in the vault that its document names. */
  predicate IsActive(bot: Doc, delegate: string, vault: string) {
    && Enabled in bot && bot[Enabled] == Bool(true)
    && (Deleted in bot ==> bot[Deleted] != Bool(true))
    && Delegate in bot && bot[Delegate] == Str(delegate)
    && Vault in bot && bot[Vault] == Str(vault)
  }

  /** A tick's turn for a bot, under the vault that its document names. */
  ghost predicate HasTurn(b: Books, t: Tick, vault: string, id: string)
    requires id in b.bots
  {
    exists k, i :: 0 <= k < |t.groups| && 0 <= i < |t.groups[k].visits|
                   && t.groups[k].vault == vault && t.groups[k].visits[i].id == id
                   && Handled(RunTick(b, t).books, b.bots, t.groups[k], t.groups[k].visits[i])
  }

  /** Every active bot is handled by each tick of its delegate that holds the lock and goes through. */
  lemma TickHandlesActiveBots(b: Books, t: Tick, vault: string, id: string)
    requires t.delegate != "" && id in b.bots && IsActive(b.bots[id], t.delegate, vault)
    requires Collected(b.bots, t.delegate, t.groups)
    requires !Lease.Blocked(b.lock, t.holder, t.now) && RunTick(b, t).ok
    ensures HasTurn(b, t, vault, id)
  {
    EligibleIff(b.bots[id], t.delegate);
    CompletedTickHandlesEveryBot(b, t, id);
  }

  // ---- switched off, removed ----

  predicate IsHalted(bot: Doc) {
    Enabled in bot && bot[Enabled] == Bool(false)
  }

  predicate IsRemoved(bot: Doc) {
    Deleted in bot && bot[Deleted] == Bool(true)
  }

  /** Two documents that differ at most in how the bot is switched. */
  predicate SameRecord(now: Doc, was: Doc) {
    forall f :: f != Id && f != Enabled && f != Deleted ==>
                  (f in now <==> f in was) && (f in was ==> now[f] == was[f])
  }

  /** No swap was sent and no order written for a bot, and its document differs at most in how it is switched. */
  ghost predicate Rested(b: Books, c: Books, id: string)
    requires id in b.bots
  {
    && id in c.bots && SameRecord(c.bots[id], b.bots[id])
    && OrdersOf(c, id) == OrdersOf(b, id) && SentFor(c.sent, id) == SentFor(b.sent, id)
  }

  lemma SwitchingKeepsRecord(bot: Doc, id: string, on: bool)
    ensures var next := SwitchedDoc(bot, id, on);
            && SameRecord(next, bot)
            && Enabled in next && next[Enabled] == Bool(on)
            && (IsRemoved(next) <==> IsRemoved(bot))
  {}

  lemma RemovingKeepsRecord(bot: Doc)
    ensures SameRecord(RemovedDoc(bot), bot) && IsHalted(RemovedDoc(bot)) && IsRemoved(RemovedDoc(bot))
  {}

  lemma EditRests(b: Books, id: string, edited: string, doc: Doc)
    requires id in b.bots && (edited == id ==> SameRecord(doc, b.bots[id]))
    ensures Rested(b, b.(bots := b.bots[edited := doc]), id)
  {
    assert OrdersOf(b.(bots := b.bots[edited := doc]), id) == OrdersOf(b, id);
  }

  lemma EventRests(b: Books, e: Event, id: string)
    requires id in b.bots
    requires e.Ticked? ==> !Eligible(b.bots[id], e.tick.delegate)
    ensures var c := ApplyEvent(b, e);
            && Rested(b, c, id)
            && (e != Switched(id, true) && IsHalted(b.bots[id]) ==> IsHalted(c.bots[id]))
            && (IsRemoved(b.bots[id]) ==> IsRemoved(c.bots[id]))
  {
    match e
    case Ticked(t) => TickLeavesOthersAlone(b, t, id);
    case Created(other, _, _, _, _, _) =>
      if other !in b.bots {
        EditRests(b, id, other, NewBot(e));
      }
    case Switched(other, on) =>
      if other in b.bots {
        SwitchingKeepsRecord(b.bots[other], other, on);
        EditRests(b, id, other, SwitchedDoc(b.bots[other], other, on));
      }
    case Removed(other) =>
      if other in b.bots {
        RemovingKeepsRecord(b.bots[other]);
        EditRests(b, id, other, RemovedDoc(b.bots[other]));
      }
  }

  lemma RestedTransitive(a: Books, b: Books, c: Books, id: string)
    requires id in a.bots && Rested(a, b, id) && Rested(b, c, id)
    ensures Rested(a, c, id)
  {}

  /** A halted bot rests through every run that does not switch it on, whoever's ticks it holds. */
  lemma {:induction false} HaltedBotRests(b: Books, events: seq<Event>, id: string)
    requires id in b.bots && IsHalted(b.bots[id])
    requires forall i :: 0 <= i < |events| ==> events[i] != Switched(id, true)
    ensures Rested(b, RunEvents(b, events), id) && IsHalted(RunEvents(b, events).bots[id])
    decreases |events|
  {
    if events == [] {
    } else {
      var c := ApplyEvent(b, events[0]);
      EventRests(b, events[0], id);
      HaltedBotRests(c, events[1..], id);
      RestedTransitive(b, c, RunEvents(b, events), id);
    }
  }

  /** A removed bot rests through every run; not even switching it on brings it back. */
  lemma {:induction false} RemovedBotRests(b: Books, events: seq<Event>, id: string)
    requires id in b.bots && IsRemoved(b.bots[id])
    ensures Rested(b, RunEvents(b, events), id) && IsRemoved(RunEvents(b, events).bots[id])
    decreases |events|
  {
    if events == [] {
    } else {
      var c := ApplyEvent(b, events[0]);
      EventRests(b, events[0], id);
      RemovedBotRests(c, events[1..], id);
      RestedTransitive(b, c, RunEvents(b, events), id);
    }
  }

  /** Once a bot is switched off, nothing is traded or recorded for it until it is switched on again. */
  lemma SwitchedOffBotRests(b: Books, id: string, events: seq<Event>)
    requires id in b.bots && forall i :: 0 <= i < |events| ==> events[i] != Switched(id, true)
    ensures Rested(b, RunEvents(ApplyEvent(b, Switched(id, false)), events), id)
  {
    var c := ApplyEvent(b, Switched(id, false));
    EventRests(b, Switched(id, false), id);
    HaltedBotRests(c, events, id);
    RestedTransitive(b, c, RunEvents(c, events), id);
  }

  /** Once a bot is removed, nothing is traded or recorded for it ever again. */
  lemma RemovedBotNeverTrades(b: Books, id: string, events: seq<Event>)
    requires id in b.bots
    ensures Rested(b, RunEvents(ApplyEvent(b, Removed(id)), events), id)
  {
    var c := ApplyEvent(b, Removed(id));
    EventRests(b, Removed(id), id);
    RemovedBotRests(c, events, id);
    RestedTransitive(b, c, RunEvents(c, events), id);
  }

  // ---- created, switched on ----

  /** A new bot is active at once for the delegate and vault it was created with, and has not run. */
  lemma CreatedBotIsActive(b: Books, e: Event)
    requires e.Created? && e.id !in b.bots
    ensures var c := ApplyEvent(b, e);
            && c.bots.Keys == b.bots.Keys + {e.id}
            && (forall id :: id in b.bots ==> c.bots[id] == b.bots[id])
            && IsActive(c.bots[e.id], e.delegate, e.vault)
            && Runs(c, e.id) == 0
            && Strategy in c.bots[e.id] && c.bots[e.id][Strategy] == e.strategy
  {}

  /** Creating a bot under an id in use changes nothing. */
  lemma CreatedTwiceIsIgnored(b: Books, e: Event)
    requires e.Created? && e.id in b.bots
    ensures ApplyEvent(b, e) == b
  {}

  /** Switching a bot on makes it active, unless it was removed; its delegate, vault and record stay. */
  lemma SwitchedOnBotIsActive(b: Books, id: string, delegate: string, vault: string)
    requires id in b.bots && !IsRemoved(b.bots[id])
    requires Delegate in b.bots[id] && b.bots[id][Delegate] == Str(delegate)
    requires Vault in b.bots[id] && b.bots[id][Vault] == Str(vault)
    ensures var c := ApplyEvent(b, Switched(id, true));
            IsActive(c.bots[id], delegate, vault) && Rested(b, c, id)
  {
    SwitchedDocIsActive(b.bots[id], id, delegate, vault);
    SwitchingKeepsRecord(b.bots[id], id, true);
    EditRests(b, id, id, SwitchedDoc(b.bots[id], id, true));
  }

  /** Switching or removing a bot touches no other bot and no bot that does not exist. */
  lemma EditsTouchOneBot(b: Books, id: string, on: bool, other: string)
    requires other in b.bots && other != id
    ensures var c := ApplyEvent(b, Switched(id, on)); c.bots.Keys == b.bots.Keys && c.bots[other] == b.bots[other]
    ensures var c := ApplyEvent(b, Removed(id)); c.bots.Keys == b.bots.Keys && c.bots[other] == b.bots[other]
  {}

  lemma SwitchedDocIsActive(bot: Doc, id: string, delegate: string, vault: string)
    requires !IsRemoved(bot)
    requires Delegate in bot && bot[Delegate] == Str(delegate) && Vault in bot && bot[Vault] == Str(vault)
    ensures IsActive(SwitchedDoc(bot, id, true), delegate, vault)
  {}

  /** So the next tick of its delegate that goes through handles a bot just created. */
  lemma CreatedBotIsHandled(b: Books, e: Event, t: Tick)
    requires e.Created? && e.id !in b.bots && e.delegate == t.delegate != ""
    requires var c := ApplyEvent(b, e);
             && Collected(c.bots, t.delegate, t.groups)
             && !Lease.Blocked(c.lock, t.holder, t.now) && RunTick(c, t).ok
    ensures HasTurn(ApplyEvent(b, e), t, e.vault, e.id)
  {
    CreatedBotIsActive(b, e);
    TickHandlesActiveBots(ApplyEvent(b, e), t, e.vault, e.id);
  }
}
