/** What every run of keeper ticks and bot edits keeps true of the books. */
module BookInvariants {
  import opened Wrappers
  import opened Arithmetic
  import opened DocStore
  import opened Decimal
  import opened Bookkeeping
  import Lease

  function OrdersOf(b: Books, bot: string): set<string> {
    set k | k in b.orders && At(Obj(b.orders[k]), BotId) == Str(bot)
  }

  /** Swaps sent for a bot. */
  function SentFor(sent: seq<(string, Fill)>, bot: string): nat {
    if sent == [] then 0
    else SentFor(sent[..|sent| - 1], bot) + (if sent[|sent| - 1].0 == bot then 1 else 0)
  }

  function Runs(b: Books, bot: string): nat {
    if bot in b.bots then RunsOf(b.bots[bot]) else 0
  }

  function Last(b: Books, bot: string): nat {
    if bot in b.bots then LastRun(b.bots[bot]) else 0
  }

  // ---- order ids ----

  lemma OrderIdInjective(s: nat, a: string, t: nat, b: string)
    requires OrderId(s, a) == OrderId(t, b)
    ensures s == t && a == b
  {
    var x, y := Show(s), Show(t);
    var oid := OrderId(s, a);
    assert oid[|x|] == '-' && oid[|y|] == '-';
    assert forall i :: 0 <= i < |x| ==> oid[i] == x[i];
    assert forall i :: 0 <= i < |y| ==> oid[i] == y[i];
    assert |x| == |y|;
    assert x == oid[..|x|] == y;
    assert a == oid[|x| + 1..] == b;
  }

  // ---- the invariant ----

  ghost predicate Counted(b: Books, bot: string) {
    |OrdersOf(b, bot)| == SentFor(b.sent, bot) <= Runs(b, bot) <= Last(b, bot)
  }

  /** An order id was stamped no later than the last recorded run of its bot. */
  ghost predicate Stale(b: Books, oid: string) {
    exists stamp: nat, bot: string :: oid == OrderId(stamp, bot) && stamp <= Last(b, bot)
  }

  /** An order that tells of a swap: whose it was, what went out and came in, and under which signature. */
  predicate Tells(order: Doc, swap: (string, Fill)) {
    && At(Obj(order), BotId) == Str(swap.0)
    && At(Obj(order), InputMint) == Str(swap.1.inputMint)
    && At(Obj(order), OutputMint) == Str(swap.1.outputMint)
    && At(Obj(order), InputAmount) == Str(Show(swap.1.input))
    && At(Obj(order), OutputAmount) == Str(Show(swap.1.output))
    && At(Obj(order), Signature) == Str(swap.1.signature)
  }

  ghost predicate ToldOf(b: Books, k: string)
    requires k in b.orders
  {
    exists j :: 0 <= j < |b.sent| && Tells(b.orders[k], b.sent[j])
  }

  ghost predicate HasOrder(b: Books, swap: (string, Fill)) {
    exists k :: k in b.orders && Tells(b.orders[k], swap)
  }

  /** Every order tells of a swap that was sent, and every swap sent has an order that tells of it. */
  ghost predicate Accounted(b: Books) {
    && (forall k :: k in b.orders ==> ToldOf(b, k))
    && (forall j :: 0 <= j < |b.sent| ==> HasOrder(b, b.sent[j]))
  }

  ghost predicate Invariant(b: Books) {
    Accounted(b) && Matched(b)
  }

  ghost predicate Matched(b: Books) {
    && (forall bot :: Counted(b, bot))
    && (forall k :: k in b.orders ==> Stale(b, k))
  }

  /** The clock has moved on since the bot last ran, and does not run backwards inside a pass. */
  predicate OnTime(b: Books, v: Visit) {
    Last(b, v.id) < v.idStamp <= v.orderStamp <= v.doneStamp < U64
  }

  lemma FreshOrder(b: Books, v: Visit)
    requires Matched(b) && OnTime(b, v)
    ensures OrderId(v.idStamp, v.id) !in b.orders
  {
    var oid := OrderId(v.idStamp, v.id);
    if oid in b.orders {
      assert Stale(b, oid);
      var stamp: nat, bot: string :| oid == OrderId(stamp, bot) && stamp <= Last(b, bot);
      OrderIdInjective(v.idStamp, v.id, stamp, bot);
    }
  }

  lemma SentAppend(sent: seq<(string, Fill)>, one: (string, Fill), bot: string)
    ensures SentFor(sent + [one], bot) == SentFor(sent, bot) + (if one.0 == bot then 1 else 0)
  {
    assert (sent + [one])[..|sent|] == sent;
  }

  lemma OrdersGrow(b: Books, vault: string, v: Visit, fill: Fill, bot: string)
    requires OrderId(v.idStamp, v.id) !in b.orders
    ensures OrdersOf(WithOrder(b, vault, v, fill), bot)
            == OrdersOf(b, bot) + (if bot == v.id then {OrderId(v.idStamp, v.id)} else {})
  {}

  lemma OrderCounts(b: Books, vault: string, v: Visit, fill: Fill, bot: string)
    requires OrderId(v.idStamp, v.id) !in b.orders
    ensures var next := WithOrder(WithSwap(b, v, fill), vault, v, fill);
            && |OrdersOf(next, bot)| == |OrdersOf(b, bot)| + (if bot == v.id then 1 else 0)
            && SentFor(next.sent, bot) == SentFor(b.sent, bot) + (if bot == v.id then 1 else 0)
  {
    OrdersGrow(WithSwap(b, v, fill), vault, v, fill, bot);
    assert OrdersOf(WithSwap(b, v, fill), bot) == OrdersOf(b, bot);
    SentAppend(b.sent, (v.id, fill), bot);
  }

  /** An order and a sent swap are counted together, and only for the visited bot. */
  lemma RecordedCounts(b: Books, bot: Doc, vault: string, v: Visit, fill: Option<Fill>, state: Option<string>,
                       other: string)
    requires OrderId(v.idStamp, v.id) !in b.orders
    ensures var next := Recorded(b, bot, vault, v, fill, state);
            var more := if fill.Some? && other == v.id then 1 else 0;
            && |OrdersOf(next, other)| == |OrdersOf(b, other)| + more
            && SentFor(next.sent, other) == SentFor(b.sent, other) + more
  {
    var next := Recorded(b, bot, vault, v, fill, state);
    if fill.Some? {
      OrderCounts(b, vault, v, fill.value, other);
      assert OrdersOf(next, other) == OrdersOf(WithOrder(WithSwap(b, v, fill.value), vault, v, fill.value), other);
    } else {
      assert OrdersOf(next, other) == OrdersOf(b, other);
    }
  }

  lemma RecordKeepsCount(b: Books, bot: Doc, vault: string, v: Visit, fill: Option<Fill>, state: Option<string>,
                         other: string)
    requires Matched(b) && v.id in b.bots && b.bots[v.id] == bot && OnTime(b, v)
    ensures Counted(Recorded(b, bot, vault, v, fill, state), other)
  {
    assert Counted(b, other) && Counted(b, v.id);
    FreshOrder(b, v);
    RecordedRuns(b, bot, vault, v, fill, state, other);
    RecordedCounts(b, bot, vault, v, fill, state, other);
  }

  lemma RecordedRuns(b: Books, bot: Doc, vault: string, v: Visit, fill: Option<Fill>, state: Option<string>,
                     other: string)
    requires v.id in b.bots && b.bots[v.id] == bot && v.doneStamp < U64 && RunsOf(bot) + 1 < U64
    ensures var next := Recorded(b, bot, vault, v, fill, state);
            && Runs(next, other) == Runs(b, other) + (if other == v.id then 1 else 0)
            && Last(next, other) == if other == v.id then v.doneStamp else Last(b, other)
  {
    StampedCounts(bot, v.doneStamp, state);
  }

  lemma RecordKeepsAccounts(b: Books, bot: Doc, vault: string, v: Visit, fill: Option<Fill>, state: Option<string>)
    requires Accounted(b) && OrderId(v.idStamp, v.id) !in b.orders
    ensures Accounted(Recorded(b, bot, vault, v, fill, state))
  {
    if fill.Some? {
      OrderKeepsAccounts(b, vault, v, fill.value);
      SameAccounts(WithOrder(WithSwap(b, v, fill.value), vault, v, fill.value),
                   Recorded(b, bot, vault, v, fill, state));
    } else {
      SameAccounts(b, Recorded(b, bot, vault, v, fill, state));
    }
  }

  lemma SameAccounts(b: Books, c: Books)
    requires Accounted(b) && c.orders == b.orders && c.sent == b.sent
    ensures Accounted(c)
  {
    assert forall k :: k in b.orders ==> ToldOf(b, k) == ToldOf(c, k);
    assert forall j :: 0 <= j < |b.sent| ==> HasOrder(b, b.sent[j]) == HasOrder(c, b.sent[j]);
  }

  lemma OrderKeepsAccounts(b: Books, vault: string, v: Visit, fill: Fill)
    requires Accounted(b) && OrderId(v.idStamp, v.id) !in b.orders
    ensures Accounted(WithOrder(WithSwap(b, v, fill), vault, v, fill))
  {
    var oid := OrderId(v.idStamp, v.id);
    OrderTells(oid, v.id, vault, v.orderStamp, fill);
    AccountsGrow(b, WithOrder(WithSwap(b, v, fill), vault, v, fill), oid,
                 OrderDoc(oid, v.id, vault, v.orderStamp, fill), (v.id, fill));
  }

  lemma OrderTells(oid: string, bot: string, vault: string, stamp: nat, fill: Fill)
    ensures Tells(OrderDoc(oid, bot, vault, stamp, fill), (bot, fill))
  {}

  lemma AccountsGrow(b: Books, c: Books, oid: string, order: Doc, swap: (string, Fill))
    requires Accounted(b) && Tells(order, swap) && oid !in b.orders
    requires c.orders == b.orders[oid := order] && c.sent == b.sent + [swap]
    ensures Accounted(c)
  {
    forall k | k in c.orders ensures ToldOf(c, k) {
      if k == oid {
        assert c.sent[|b.sent|] == swap;
      } else {
        StillTold(b, c, k, swap);
      }
    }
    forall j | 0 <= j < |c.sent| ensures HasOrder(c, c.sent[j]) {
      if j == |b.sent| {
        assert Tells(c.orders[oid], swap);
      } else {
        assert c.sent[j] == b.sent[j];
        StillHasOrder(b, c, oid, order, c.sent[j]);
      }
    }
  }

  lemma StillTold(b: Books, c: Books, k: string, swap: (string, Fill))
    requires k in b.orders && ToldOf(b, k) && k in c.orders && c.orders[k] == b.orders[k] && c.sent == b.sent + [swap]
    ensures ToldOf(c, k)
  {
    var j :| 0 <= j < |b.sent| && Tells(b.orders[k], b.sent[j]);
    assert c.sent[j] == b.sent[j];
  }

  lemma StillHasOrder(b: Books, c: Books, oid: string, order: Doc, swap: (string, Fill))
    requires HasOrder(b, swap) && oid !in b.orders && c.orders == b.orders[oid := order]
    ensures HasOrder(c, swap)
  {
    var k :| k in b.orders && Tells(b.orders[k], swap);
    assert c.orders[k] == b.orders[k];
  }

  lemma StampedCounts(bot: Doc, done: nat, state: Option<string>)
    requires done < U64 && RunsOf(bot) + 1 < U64
    ensures RunsOf(Stamped(bot, done, state)) == RunsOf(bot) + 1
    ensures LastRun(Stamped(bot, done, state)) == done
  {}

  lemma RecordKeepsMatched(b: Books, bot: Doc, vault: string, v: Visit, fill: Option<Fill>, state: Option<string>)
    requires Matched(b) && v.id in b.bots && b.bots[v.id] == bot && OnTime(b, v)
    ensures Matched(Recorded(b, bot, vault, v, fill, state))
  {
    var next := Recorded(b, bot, vault, v, fill, state);
    forall other ensures Counted(next, other) {
      RecordKeepsCount(b, bot, vault, v, fill, state, other);
    }
    assert Counted(b, v.id);
    RecordedRuns(b, bot, vault, v, fill, state, v.id);
    forall k | k in next.orders ensures Stale(next, k) {
      if k in b.orders {
        assert Stale(b, k);
        var stamp: nat, owner: string :| k == OrderId(stamp, owner) && stamp <= Last(b, owner);
        RecordedRuns(b, bot, vault, v, fill, state, owner);
      } else {
        assert k == OrderId(v.idStamp, v.id) && v.idStamp <= Last(next, v.id);
      }
    }
  }

  lemma RecordKeepsInvariant(b: Books, bot: Doc, vault: string, v: Visit, fill: Option<Fill>, state: Option<string>)
    requires Invariant(b) && v.id in b.bots && b.bots[v.id] == bot && OnTime(b, v)
    ensures Invariant(Recorded(b, bot, vault, v, fill, state))
  {
    FreshOrder(b, v);
    RecordKeepsAccounts(b, bot, vault, v, fill, state);
    RecordKeepsMatched(b, bot, vault, v, fill, state);
  }

  // ---- one tick ----

  /** Visits still to come: different bots, whose documents are as in the snapshot, each on time. */
  ghost predicate Ready(b: Books, snapshot: map<string, Doc>, visits: seq<Visit>) {
    && (forall i, j :: 0 <= i < j < |visits| ==> visits[i].id != visits[j].id)
    && (forall i :: 0 <= i < |visits| && visits[i].id in snapshot ==>
          visits[i].id in b.bots && b.bots[visits[i].id] == snapshot[visits[i].id] && OnTime(b, visits[i]))
  }

  lemma VisitKeeps(b: Books, snapshot: map<string, Doc>, delegate: string, vault: string, slip: nat,
                   v: Visit, later: seq<Visit>)
    requires Invariant(b) && Ready(b, snapshot, [v] + later)
    ensures var p := VisitBot(b, snapshot, delegate, vault, slip, v);
            Invariant(p.books) && Ready(p.books, snapshot, later)
  {
    assert ([v] + later)[0] == v;
    VisitKeepsInvariant(b, snapshot, delegate, vault, slip, v);
    VisitKeepsOthers(b, snapshot, delegate, vault, slip, v);
    OthersStayReady(b, VisitBot(b, snapshot, delegate, vault, slip, v).books, snapshot, v, later);
  }

  lemma VisitKeepsInvariant(b: Books, snapshot: map<string, Doc>, delegate: string, vault: string, slip: nat, v: Visit)
    requires Invariant(b)
    requires v.id in snapshot ==> v.id in b.bots && b.bots[v.id] == snapshot[v.id] && OnTime(b, v)
    ensures Invariant(VisitBot(b, snapshot, delegate, vault, slip, v).books)
  {
    if v.id in snapshot && Eligible(snapshot[v.id], delegate) {
      match RunBot(snapshot[v.id], slip, v.chain)
      case Aborted =>
      case Done(fill, state) => RecordKeepsInvariant(b, snapshot[v.id], vault, v, fill, state);
    }
  }

  lemma VisitKeepsOthers(b: Books, snapshot: map<string, Doc>, delegate: string, vault: string, slip: nat, v: Visit)
    ensures var c := VisitBot(b, snapshot, delegate, vault, slip, v).books;
            forall id :: id != v.id && id in b.bots ==> id in c.bots && c.bots[id] == b.bots[id]
  {}

  lemma OthersStayReady(b: Books, c: Books, snapshot: map<string, Doc>, v: Visit, later: seq<Visit>)
    requires Ready(b, snapshot, [v] + later)
    requires forall id :: id != v.id && id in b.bots ==> id in c.bots && c.bots[id] == b.bots[id]
    ensures Ready(c, snapshot, later)
  {
    var all := [v] + later;
    assert all[0] == v && forall i :: 0 <= i < |later| ==> all[i + 1] == later[i];
    forall i | 0 <= i < |later| && later[i].id in snapshot
      ensures later[i].id in c.bots && c.bots[later[i].id] == snapshot[later[i].id]
      ensures OnTime(c, later[i])
    {
      assert all[i + 1].id != all[0].id;
    }
    forall i, j | 0 <= i < j < |later| ensures later[i].id != later[j].id {
      assert all[i + 1].id != all[j + 1].id;
    }
  }

  lemma {:induction false} VisitsKeep(b: Books, snapshot: map<string, Doc>, delegate: string, vault: string, slip: nat,
                                      visits: seq<Visit>, later: seq<Visit>)
    requires Invariant(b) && Ready(b, snapshot, visits + later)
    ensures var p := VisitBots(b, snapshot, delegate, vault, slip, visits);
            Invariant(p.books) && (p.ok ==> Ready(p.books, snapshot, later))
    decreases |visits|
  {
    if visits == [] {
      assert visits + later == later;
    } else {
      assert visits + later == [visits[0]] + (visits[1..] + later);
      VisitKeeps(b, snapshot, delegate, vault, slip, visits[0], visits[1..] + later);
      var p := VisitBot(b, snapshot, delegate, vault, slip, visits[0]);
      if p.ok {
        VisitsKeep(p.books, snapshot, delegate, vault, slip, visits[1..], later);
      }
    }
  }

  lemma ReadyWithout(b: Books, snapshot: map<string, Doc>, visits: seq<Visit>, later: seq<Visit>)
    requires Ready(b, snapshot, visits + later)
    ensures Ready(b, snapshot, later)
  {
    var all, n := visits + later, |visits|;
    assert forall i :: 0 <= i < |later| ==> all[n + i] == later[i];
    forall i, j | 0 <= i < j < |later| ensures later[i].id != later[j].id {
      assert all[n + i].id != all[n + j].id;
    }
  }

  function AllVisits(groups: seq<Group>): seq<Visit> {
    if groups == [] then [] else groups[0].visits + AllVisits(groups[1..])
  }

  lemma {:induction false} GroupsKeep(b: Books, snapshot: map<string, Doc>, delegate: string, groups: seq<Group>)
    requires Invariant(b) && Ready(b, snapshot, AllVisits(groups))
    ensures Invariant(RunGroups(b, snapshot, delegate, groups).books)
    decreases |groups|
  {
    if groups == [] {
    } else {
      var g, later := groups[0], AllVisits(groups[1..]);
      ReadyWithout(b, snapshot, g.visits, later);
      if g.gate.Open? {
        VisitsKeep(b, snapshot, delegate, g.vault, g.gate.defaultSlip, g.visits, later);
      }
      var p := RunGroup(b, snapshot, delegate, g);
      if p.ok {
        GroupsKeep(p.books, snapshot, delegate, groups[1..]);
      }
    }
  }

  lemma LockIsImmaterial(b: Books, lock: Option<Lease.Lock>)
    requires Invariant(b)
    ensures Invariant(b.(lock := lock))
  {
    SameAccounts(b, b.(lock := lock));
    SameCounts(b, b.(lock := lock));
  }

  /** What is matched depends on the orders, the swaps, and each bot's run count and last run. */
  lemma SameCounts(b: Books, c: Books)
    requires Matched(b) && c.orders == b.orders && c.sent == b.sent
    requires forall bot :: Runs(c, bot) == Runs(b, bot) && Last(c, bot) == Last(b, bot)
    ensures Matched(c)
  {
    forall bot ensures Counted(c, bot) {
      assert Counted(b, bot) && OrdersOf(c, bot) == OrdersOf(b, bot);
    }
    forall k | k in c.orders ensures Stale(c, k) {
      assert Stale(b, k);
      var stamp: nat, bot: string :| k == OrderId(stamp, bot) && stamp <= Last(b, bot);
      assert stamp <= Last(c, bot);
    }
  }

  /** Visits of one vault go to different bots of that vault, and no vault comes twice. */
  ghost predicate Spread(snapshot: map<string, Doc>, groups: seq<Group>) {
    && (forall j, k :: 0 <= j < k < |groups| ==> groups[j].vault != groups[k].vault)
    && (forall k :: 0 <= k < |groups| ==> DistinctBots(groups[k].visits))
    && (forall k, i :: 0 <= k < |groups| && 0 <= i < |groups[k].visits| ==>
          BelongsTo(snapshot, groups[k].visits[i].id, groups[k].vault))
  }

  predicate DistinctBots(visits: seq<Visit>) {
    forall i, j :: 0 <= i < j < |visits| ==> visits[i].id != visits[j].id
  }

  predicate BelongsTo(snapshot: map<string, Doc>, id: string, vault: string) {
    id in snapshot && VaultOf(snapshot[id]) == vault
  }

  lemma CollectedIsSpread(snapshot: map<string, Doc>, delegate: string, groups: seq<Group>)
    requires Collected(snapshot, delegate, groups)
    ensures Spread(snapshot, groups)
  {
    var byVault :| Grouped(snapshot, delegate, byVault) && Follows(groups, byVault);
    forall k, i | 0 <= k < |groups| && 0 <= i < |groups[k].visits|
      ensures BelongsTo(snapshot, groups[k].visits[i].id, groups[k].vault)
    {
      assert IsListed(snapshot, delegate, groups[k].vault, byVault[groups[k].vault][i]);
    }
  }

  /** A tick over collected bots visits each bot at most once. */
  lemma {:induction false} SpreadVisitsOnce(snapshot: map<string, Doc>, groups: seq<Group>)
    requires Spread(snapshot, groups)
    ensures DistinctBots(AllVisits(groups))
    ensures forall i :: 0 <= i < |AllVisits(groups)| ==>
                          AllVisits(groups)[i].id in snapshot
                          && HasVault(groups, VaultOf(snapshot[AllVisits(groups)[i].id]))
    decreases |groups|
  {
    if groups == [] {
    } else {
      var g, rest := groups[0], groups[1..];
      var all, n := AllVisits(groups), |groups[0].visits|;
      assert Spread(snapshot, rest) by {
        assert forall k :: 0 <= k < |rest| ==> rest[k] == groups[k + 1];
      }
      SpreadVisitsOnce(snapshot, rest);
      forall i | 0 <= i < |all|
        ensures all[i].id in snapshot && HasVault(groups, VaultOf(snapshot[all[i].id]))
      {
        if i < n {
          assert BelongsTo(snapshot, g.visits[i].id, g.vault);
        } else {
          var k :| 0 <= k < |rest| && rest[k].vault == VaultOf(snapshot[AllVisits(rest)[i - n].id]);
          assert groups[k + 1] == rest[k];
        }
      }
      forall i, j | 0 <= i < j < |all| ensures all[i].id != all[j].id {
        if i < n <= j {
          var k :| 0 <= k < |rest| && rest[k].vault == VaultOf(snapshot[AllVisits(rest)[j - n].id]);
          assert BelongsTo(snapshot, g.visits[i].id, g.vault) && groups[k + 1] == rest[k];
        }
      }
    }
  }

  lemma TickKeeps(b: Books, t: Tick)
    requires Invariant(b) && TickPossible(b, t)
    ensures Invariant(RunTick(b, t).books)
  {
    if !Lease.Blocked(b.lock, t.holder, t.now) {
      var held := b.(lock := Lease.Acquired(b.lock, t.holder, t.now, Lease.TTL));
      LockIsImmaterial(b, held.lock);
      CollectedIsSpread(b.bots, t.delegate, t.groups);
      SpreadVisitsOnce(b.bots, t.groups);
      assert Ready(held, b.bots, AllVisits(t.groups));
      GroupsKeep(held, b.bots, t.delegate, t.groups);
      var p := RunGroups(held, b.bots, t.delegate, t.groups);
      LockIsImmaterial(p.books, Lease.Released(p.books.lock, t.holder));
    }
  }

  /** A tick that gets the lock runs the bots it collects, each after the clock has moved on from its last run. */
  ghost predicate TickPossible(b: Books, t: Tick) {
    !Lease.Blocked(b.lock, t.holder, t.now) ==>
      && Collected(b.bots, t.delegate, t.groups)
      && forall i :: 0 <= i < |AllVisits(t.groups)| ==> OnTime(b, AllVisits(t.groups)[i])
  }

  // ---- runs of ticks and of the bot API ----

  datatype Event =
    | Ticked(tick: Tick)
    | Created(id: string, vault: string, owner: string, delegate: string, strategy: Json, at: int)
    | Switched(id: string, enabled: bool)
    | Removed(id: string)

  function NewBot(e: Event): Doc
    requires e.Created?
  {
    map[Id := Str(e.id), Vault := Str(e.vault), Owner := Str(e.owner), Delegate := Str(e.delegate),
        Enabled := Bool(true), Strategy := e.strategy, CreatedAt := Num(e.at), RunCount := Num(0), LastRunAt := Null]
  }

  function ApplyEvent(b: Books, e: Event): Books {
    match e
    case Ticked(t) => RunTick(b, t).books
    case Created(id, _, _, _, _, _) => if id in b.bots then b else b.(bots := b.bots[id := NewBot(e)])
    case Switched(id, on) =>
      if id !in b.bots then b
      else b.(bots := b.bots[id := SwitchedDoc(b.bots[id], id, on)])
    case Removed(id) =>
      if id !in b.bots then b
      else b.(bots := b.bots[id := RemovedDoc(b.bots[id])])
  }

  ghost predicate Possible(b: Books, e: Event) {
    e.Ticked? ==> TickPossible(b, e.tick)
  }

  function RunEvents(b: Books, events: seq<Event>): Books
    decreases |events|
  {
    if events == [] then b else RunEvents(ApplyEvent(b, events[0]), events[1..])
  }

  ghost predicate PossibleRun(b: Books, events: seq<Event>)
    decreases |events|
  {
    events != [] ==> Possible(b, events[0]) && PossibleRun(ApplyEvent(b, events[0]), events[1..])
  }

  lemma EditKeeps(b: Books, id: string, doc: Doc)
    requires Invariant(b) && RunsOf(doc) == Runs(b, id) && LastRun(doc) == Last(b, id)
    ensures Invariant(b.(bots := b.bots[id := doc]))
  {
    SameAccounts(b, b.(bots := b.bots[id := doc]));
    SameCounts(b, b.(bots := b.bots[id := doc]));
  }

  /** The document of a bot after it is switched on or off. */
  function SwitchedDoc(bot: Doc, id: string, on: bool): Doc {
    Merged(Some(bot), id, map[Enabled := Bool(on)])
  }

  /** The document of a bot after it is removed: halted and marked. */
  function RemovedDoc(bot: Doc): Doc {
    bot[Enabled := Bool(false)][Deleted := Bool(true)]
  }

  lemma EditsKeepCounts(bot: Doc, id: string, on: bool)
    ensures RunsOf(SwitchedDoc(bot, id, on)) == RunsOf(bot) && LastRun(SwitchedDoc(bot, id, on)) == LastRun(bot)
    ensures RunsOf(RemovedDoc(bot)) == RunsOf(bot) && LastRun(RemovedDoc(bot)) == LastRun(bot)
  {}

  lemma EventKeeps(b: Books, e: Event)
    requires Invariant(b) && Possible(b, e)
    ensures Invariant(ApplyEvent(b, e))
  {
    match e
    case Ticked(t) => TickKeeps(b, t);
    case Created(id, _, _, _, _, _) =>
      if id !in b.bots {
        NewBotHasNotRun(e);
        EditKeeps(b, id, NewBot(e));
      }
    case Switched(id, on) =>
      if id in b.bots {
        EditsKeepCounts(b.bots[id], id, on);
        EditKeeps(b, id, SwitchedDoc(b.bots[id], id, on));
      }
    case Removed(id) =>
      if id in b.bots {
        EditsKeepCounts(b.bots[id], id, false);
        EditKeeps(b, id, RemovedDoc(b.bots[id]));
      }
  }

  lemma NewBotHasNotRun(e: Event)
    requires e.Created?
    ensures RunsOf(NewBot(e)) == 0 && LastRun(NewBot(e)) == 0
  {}

  lemma {:induction false} RunKeepsInvariant(b: Books, events: seq<Event>)
    requires Invariant(b) && PossibleRun(b, events)
    ensures Invariant(RunEvents(b, events))
    decreases |events|
  {
    if events == [] {
    } else {
      EventKeeps(b, events[0]);
      RunKeepsInvariant(ApplyEvent(b, events[0]), events[1..]);
    }
  }

  /**
   * Over every run of ticks, completed, refused or aborted anywhere, and of bot creations, halts
   * and removals between them: a bot's recorded orders are as many as the swaps sent for it, and
   * never more than its run count; every order tells of a swap sent, and every swap has its order.
   */
  lemma OrdersMatchSwaps(lock: Option<Lease.Lock>, others: Rows, events: seq<Event>, bot: string)
    requires PossibleRun(Books(map[], map[], lock, others, []), events)
    ensures var end := RunEvents(Books(map[], map[], lock, others, []), events);
            && |OrdersOf(end, bot)| == SentFor(end.sent, bot) <= Runs(end, bot)
            && Accounted(end)
  {
    var start := Books(map[], map[], lock, others, []);
    assert Accounted(start);
    forall x ensures Counted(start, x) {
      assert OrdersOf(start, x) == {};
    }
    RunKeepsInvariant(start, events);
    assert Counted(RunEvents(start, events), bot);
  }

  /**
   * The clock matters: when the orders of a bot match its swaps, they still do after its next swap
   * exactly when no order carries its millisecond.
   */
  lemma OrdersStayMatchedIff(b: Books, vault: string, v: Visit, fill: Fill)
    requires |OrdersOf(b, v.id)| == SentFor(b.sent, v.id)
    ensures var next := WithOrder(WithSwap(b, v, fill), vault, v, fill);
            |OrdersOf(next, v.id)| == SentFor(next.sent, v.id) <==> OrderId(v.idStamp, v.id) !in b.orders
  {
    SentAppend(b.sent, (v.id, fill), v.id);
    if OrderId(v.idStamp, v.id) !in b.orders {
      OrderCounts(b, vault, v, fill, v.id);
    } else {
      assert OrdersOf(WithOrder(WithSwap(b, v, fill), vault, v, fill), v.id) == OrdersOf(b, v.id);
    }
  }

  // ---- what a tick leaves alone ----

  predicate Volatile(f: Field) {
    f == RunCount || f == LastRunAt || f == State
  }

  /** A document differs from its snapshot at most in the fields a pass writes. */
  predicate SameSetup(now: Doc, was: Doc) {
    forall f :: !Volatile(f) ==> (f in now <==> f in was) && (f in was ==> now[f] == was[f])
  }

  ghost predicate Untouched(b: Books, c: Books, snapshot: map<string, Doc>, delegate: string) {
    && c.bots.Keys == b.bots.Keys
    && c.others == b.others
    && (forall id :: id in snapshot && id in b.bots && SameSetup(b.bots[id], snapshot[id]) ==>
          SameSetup(c.bots[id], snapshot[id]))
    && (forall id :: id in snapshot && id in b.bots && !Eligible(snapshot[id], delegate) ==>
          c.bots[id] == b.bots[id] && OrdersOf(c, id) == OrdersOf(b, id) && SentFor(c.sent, id) == SentFor(b.sent, id))
  }

  lemma StampedSetup(bot: Doc, done: nat, state: Option<string>)
    ensures SameSetup(Stamped(bot, done, state), bot)
  {}

  lemma RecordedElsewhere(b: Books, bot: Doc, vault: string, v: Visit, fill: Option<Fill>, state: Option<string>,
                          id: string)
    requires id != v.id
    ensures var c := Recorded(b, bot, vault, v, fill, state);
            OrdersOf(c, id) == OrdersOf(b, id) && SentFor(c.sent, id) == SentFor(b.sent, id)
  {
    if fill.Some? {
      SentAppend(b.sent, (v.id, fill.value), id);
    }
  }

  lemma VisitTouches(b: Books, snapshot: map<string, Doc>, delegate: string, vault: string, slip: nat, v: Visit)
    requires snapshot.Keys == b.bots.Keys
    ensures Untouched(b, VisitBot(b, snapshot, delegate, vault, slip, v).books, snapshot, delegate)
  {
    if v.id in snapshot && Eligible(snapshot[v.id], delegate) {
      match RunBot(snapshot[v.id], slip, v.chain)
      case Aborted =>
      case Done(fill, state) => RecordTouches(b, snapshot, delegate, vault, v, fill, state);
    }
  }

  lemma RecordTouches(b: Books, snapshot: map<string, Doc>, delegate: string, vault: string, v: Visit,
                      fill: Option<Fill>, state: Option<string>)
    requires snapshot.Keys == b.bots.Keys && v.id in snapshot && Eligible(snapshot[v.id], delegate)
    ensures Untouched(b, Recorded(b, snapshot[v.id], vault, v, fill, state), snapshot, delegate)
  {
    var c := Recorded(b, snapshot[v.id], vault, v, fill, state);
    RecordedFrame(b, snapshot[v.id], vault, v, fill, state);
    StampedSetup(snapshot[v.id], v.doneStamp, state);
    forall id | id in snapshot && !Eligible(snapshot[id], delegate)
      ensures OrdersOf(c, id) == OrdersOf(b, id) && SentFor(c.sent, id) == SentFor(b.sent, id)
    {
      RecordedElsewhere(b, snapshot[v.id], vault, v, fill, state, id);
    }
    BotsUntouched(b, c, snapshot, delegate, v.id);
  }

  lemma RecordedFrame(b: Books, bot: Doc, vault: string, v: Visit, fill: Option<Fill>, state: Option<string>)
    ensures var c := Recorded(b, bot, vault, v, fill, state);
            c.others == b.others && c.bots == b.bots[v.id := Stamped(bot, v.doneStamp, state)]
  {
    if fill.Some? {
      var next := WithOrder(WithSwap(b, v, fill.value), vault, v, fill.value);
      assert next.others == b.others && next.bots == b.bots;
    }
  }

  lemma BotsUntouched(b: Books, c: Books, snapshot: map<string, Doc>, delegate: string, visited: string)
    requires snapshot.Keys == b.bots.Keys == c.bots.Keys && c.others == b.others && visited in snapshot
    requires Eligible(snapshot[visited], delegate) && SameSetup(c.bots[visited], snapshot[visited])
    requires forall id :: id in snapshot && id != visited ==> c.bots[id] == b.bots[id]
    requires forall id :: id in snapshot && !Eligible(snapshot[id], delegate) ==>
                            OrdersOf(c, id) == OrdersOf(b, id) && SentFor(c.sent, id) == SentFor(b.sent, id)
    ensures Untouched(b, c, snapshot, delegate)
  {}

  lemma UntouchedTransitive(a: Books, b: Books, c: Books, snapshot: map<string, Doc>, delegate: string)
    requires Untouched(a, b, snapshot, delegate) && Untouched(b, c, snapshot, delegate)
    ensures Untouched(a, c, snapshot, delegate)
  {}

  lemma {:induction false} VisitsTouch(b: Books, snapshot: map<string, Doc>, delegate: string, vault: string,
                                       slip: nat, visits: seq<Visit>)
    requires snapshot.Keys == b.bots.Keys
    ensures Untouched(b, VisitBots(b, snapshot, delegate, vault, slip, visits).books, snapshot, delegate)
    decreases |visits|
  {
    if visits == [] {
    } else {
      VisitTouches(b, snapshot, delegate, vault, slip, visits[0]);
      var p := VisitBot(b, snapshot, delegate, vault, slip, visits[0]);
      if p.ok {
        VisitsTouch(p.books, snapshot, delegate, vault, slip, visits[1..]);
        var c := VisitBots(b, snapshot, delegate, vault, slip, visits).books;
        UntouchedTransitive(b, p.books, c, snapshot, delegate);
      }
    }
  }

  lemma NothingTouched(b: Books, snapshot: map<string, Doc>, delegate: string)
    ensures Untouched(b, b, snapshot, delegate)
  {}

  lemma GroupTouches(b: Books, snapshot: map<string, Doc>, delegate: string, g: Group)
    requires snapshot.Keys == b.bots.Keys
    ensures Untouched(b, RunGroup(b, snapshot, delegate, g).books, snapshot, delegate)
  {
    NothingTouched(b, snapshot, delegate);
    if g.gate.Open? {
      VisitsTouch(b, snapshot, delegate, g.vault, g.gate.defaultSlip, g.visits);
    }
  }

  lemma {:induction false} GroupsTouch(b: Books, snapshot: map<string, Doc>, delegate: string, groups: seq<Group>)
    requires snapshot.Keys == b.bots.Keys
    ensures Untouched(b, RunGroups(b, snapshot, delegate, groups).books, snapshot, delegate)
    decreases |groups|
  {
    if groups == [] {
    } else {
      GroupTouches(b, snapshot, delegate, groups[0]);
      var p := RunGroup(b, snapshot, delegate, groups[0]);
      if p.ok {
        GroupsTouch(p.books, snapshot, delegate, groups[1..]);
        UntouchedTransitive(b, p.books, RunGroups(b, snapshot, delegate, groups).books, snapshot, delegate);
      }
    }
  }

  /**
   * A tick, aborted or not, leaves disabled, deleted and other delegates' bots exactly as they were,
   * sends and records nothing for them, changes no other bot's settings, creates and removes no bot,
   * and writes no other collection.
   */
  lemma TickLeavesOthersAlone(b: Books, t: Tick, id: string)
    requires id in b.bots
    ensures var c := RunTick(b, t).books;
            && c.bots.Keys == b.bots.Keys && c.others == b.others
            && SameSetup(c.bots[id], b.bots[id])
            && (!Eligible(b.bots[id], t.delegate) ==>
                  && c.bots[id] == b.bots[id]
                  && OrdersOf(c, id) == OrdersOf(b, id)
                  && SentFor(c.sent, id) == SentFor(b.sent, id))
  {
    if !Lease.Blocked(b.lock, t.holder, t.now) {
      var held := b.(lock := Lease.Acquired(b.lock, t.holder, t.now, Lease.TTL));
      GroupsTouch(held, b.bots, t.delegate, t.groups);
      assert OrdersOf(held, id) == OrdersOf(b, id);
      var p := RunGroups(held, b.bots, t.delegate, t.groups);
      assert OrdersOf(RunTick(b, t).books, id) == OrdersOf(p.books, id);
    }
  }

  // ---- the lock across ticks ----

  lemma {:induction false} GroupsKeepLock(b: Books, snapshot: map<string, Doc>, delegate: string, groups: seq<Group>)
    ensures RunGroups(b, snapshot, delegate, groups).books.lock == b.lock
    decreases |groups|
  {
    if groups == [] {
    } else {
      var g := groups[0];
      if g.gate.Open? {
        VisitsKeepLock(b, snapshot, delegate, g.vault, g.gate.defaultSlip, g.visits);
      }
      var p := RunGroup(b, snapshot, delegate, g);
      if p.ok {
        GroupsKeepLock(p.books, snapshot, delegate, groups[1..]);
      }
    }
  }

  lemma {:induction false} VisitsKeepLock(b: Books, snapshot: map<string, Doc>, delegate: string, vault: string,
                                          slip: nat, visits: seq<Visit>)
    ensures VisitBots(b, snapshot, delegate, vault, slip, visits).books.lock == b.lock
    decreases |visits|
  {
    if visits == [] {
    } else {
      var p := VisitBot(b, snapshot, delegate, vault, slip, visits[0]);
      if p.ok {
        VisitsKeepLock(p.books, snapshot, delegate, vault, slip, visits[1..]);
      }
    }
  }

  /** A completed tick leaves no lock of its own; an aborted one blocks every other holder until the expiry. */
  lemma AbortedTickBlocks(b: Books, t: Tick, next: Tick)
    requires !Lease.Blocked(b.lock, t.holder, t.now) && next.holder != t.holder
    ensures var p := RunTick(b, t);
            && (p.ok ==> p.books.lock.None?)
            && (!p.ok ==>
                  && p.books.lock == Some(Lease.Lock(t.holder, t.now + Lease.TTL))
                  && (next.now < t.now + Lease.TTL ==> RunTick(p.books, next) == Progress(p.books, true))
                  && (next.now >= t.now + Lease.TTL ==> !Lease.Blocked(p.books.lock, next.holder, next.now)))
  {
    GroupsKeepLock(b.(lock := Lease.Acquired(b.lock, t.holder, t.now, Lease.TTL)), b.bots, t.delegate, t.groups);
  }

  // ---- every eligible bot gets its turn ----

  /** What a completed pass leaves of its bot. */
  ghost predicate Ran(b: Books, snapshot: map<string, Doc>, slip: nat, v: Visit)
    requires v.id in snapshot
  {
    var r := RunBot(snapshot[v.id], slip, v.chain);
    r.Done? && v.id in b.bots && b.bots[v.id] == Stamped(snapshot[v.id], v.doneStamp, r.state)
  }

  lemma {:induction false} VisitsElsewhere(b: Books, snapshot: map<string, Doc>, delegate: string, vault: string,
                                           slip: nat,
                                           visits: seq<Visit>, id: string)
    requires forall i :: 0 <= i < |visits| ==> visits[i].id != id
    ensures var c := VisitBots(b, snapshot, delegate, vault, slip, visits).books;
            (id in c.bots <==> id in b.bots) && (id in b.bots ==> c.bots[id] == b.bots[id])
    decreases |visits|
  {
    if visits == [] {
    } else {
      var p := VisitBot(b, snapshot, delegate, vault, slip, visits[0]);
      if p.ok {
        VisitsElsewhere(p.books, snapshot, delegate, vault, slip, visits[1..], id);
      }
    }
  }

  /** A vault that goes through has run each of its eligible bots once, from its own document. */
  lemma {:induction false} EligibleBotsRun(b: Books, snapshot: map<string, Doc>, delegate: string, vault: string,
                                           slip: nat,
                                           visits: seq<Visit>, i: nat)
    requires DistinctBots(visits) && i < |visits|
    requires visits[i].id in snapshot && Eligible(snapshot[visits[i].id], delegate)
    requires VisitBots(b, snapshot, delegate, vault, slip, visits).ok
    ensures Ran(VisitBots(b, snapshot, delegate, vault, slip, visits).books, snapshot, slip, visits[i])
    decreases |visits|
  {
    var p := VisitBot(b, snapshot, delegate, vault, slip, visits[0]);
    forall j, k | 0 <= j < k < |visits[1..]| ensures visits[1..][j].id != visits[1..][k].id {
      assert visits[j + 1].id != visits[k + 1].id;
    }
    if i == 0 {
      forall j | 0 <= j < |visits[1..]| ensures visits[1..][j].id != visits[0].id {
        assert visits[j + 1].id != visits[0].id;
      }
      VisitsElsewhere(p.books, snapshot, delegate, vault, slip, visits[1..], visits[0].id);
    } else {
      EligibleBotsRun(p.books, snapshot, delegate, vault, slip, visits[1..], i - 1);
    }
  }

  predicate Absent(id: string, g: Group) {
    forall i :: 0 <= i < |g.visits| ==> g.visits[i].id != id
  }

  /** What a tick that goes through has done for a bot: run it if its vault is open, left it alone if not. */
  ghost predicate Handled(b: Books, snapshot: map<string, Doc>, g: Group, v: Visit)
    requires v.id in snapshot
  {
    match g.gate
    case FetchFails => false
    case Open(slip) => Ran(b, snapshot, slip, v)
    case _ => v.id in b.bots && b.bots[v.id] == snapshot[v.id]
  }

  lemma {:induction false} GroupsElsewhere(b: Books, snapshot: map<string, Doc>, delegate: string, groups: seq<Group>,
                                           id: string)
    requires forall k :: 0 <= k < |groups| ==> Absent(id, groups[k])
    ensures var c := RunGroups(b, snapshot, delegate, groups).books;
            (id in c.bots <==> id in b.bots) && (id in b.bots ==> c.bots[id] == b.bots[id])
    decreases |groups|
  {
    if groups == [] {
    } else {
      GroupElsewhere(b, snapshot, delegate, groups[0], id);
      var p := RunGroup(b, snapshot, delegate, groups[0]);
      if p.ok {
        GroupsElsewhere(p.books, snapshot, delegate, groups[1..], id);
      }
    }
  }

  lemma GroupElsewhere(b: Books, snapshot: map<string, Doc>, delegate: string, g: Group, id: string)
    requires Absent(id, g)
    ensures var c := RunGroup(b, snapshot, delegate, g).books;
            (id in c.bots <==> id in b.bots) && (id in b.bots ==> c.bots[id] == b.bots[id])
  {
    if g.gate.Open? {
      VisitsElsewhere(b, snapshot, delegate, g.vault, g.gate.defaultSlip, g.visits, id);
    }
  }

  lemma {:induction false} GroupsHandle(b: Books, snapshot: map<string, Doc>, delegate: string, groups: seq<Group>,
                                        k: nat, i: nat)
    requires k < |groups| && i < |groups[k].visits| && DistinctBots(groups[k].visits)
    requires var id := groups[k].visits[i].id;
             && id in snapshot && Eligible(snapshot[id], delegate)
             && id in b.bots && b.bots[id] == snapshot[id]
             && forall j :: 0 <= j < |groups| && j != k ==> Absent(id, groups[j])
    requires RunGroups(b, snapshot, delegate, groups).ok
    ensures Handled(RunGroups(b, snapshot, delegate, groups).books, snapshot, groups[k], groups[k].visits[i])
    decreases |groups|
  {
    var g, v, p := groups[0], groups[k].visits[i], RunGroup(b, snapshot, delegate, groups[0]);
    if k == 0 {
      assert AnyEligible(snapshot, delegate, g.visits);
      if g.gate.Open? {
        EligibleBotsRun(b, snapshot, delegate, g.vault, g.gate.defaultSlip, g.visits, i);
      }
      assert forall j :: 0 <= j < |groups| - 1 ==> Absent(v.id, groups[1..][j]);
      GroupsElsewhere(p.books, snapshot, delegate, groups[1..], v.id);
    } else {
      GroupElsewhere(b, snapshot, delegate, g, v.id);
      assert forall j :: 0 <= j < |groups| - 1 && j != k - 1 ==> Absent(v.id, groups[1..][j]);
      GroupsHandle(p.books, snapshot, delegate, groups[1..], k - 1, i);
    }
  }

  /**
   * A tick that holds the lock and goes through has handled every enabled, undeleted bot of its
   * delegate: found under its own vault, it was run exactly once from its own document when the
   * vault was open, and left as it was when the vault was skipped.
   */
  lemma CompletedTickHandlesEveryBot(b: Books, t: Tick, id: string)
    requires Collected(b.bots, t.delegate, t.groups)
    requires !Lease.Blocked(b.lock, t.holder, t.now) && RunTick(b, t).ok
    requires id in b.bots && Eligible(b.bots[id], t.delegate)
    ensures exists k, i :: 0 <= k < |t.groups| && 0 <= i < |t.groups[k].visits|
                           && t.groups[k].vault == VaultOf(b.bots[id]) && t.groups[k].visits[i].id == id
                           && Handled(RunTick(b, t).books, b.bots, t.groups[k], t.groups[k].visits[i])
  {
    var held := b.(lock := Lease.Acquired(b.lock, t.holder, t.now, Lease.TTL));
    var k, i := PlaceOf(b.bots, t.delegate, t.groups, id);
    GroupsHandle(held, b.bots, t.delegate, t.groups, k, i);
    assert RunTick(b, t).books.bots == RunGroups(held, b.bots, t.delegate, t.groups).books.bots;
    assert Handled(RunTick(b, t).books, b.bots, t.groups[k], t.groups[k].visits[i]);
  }

  /** The one place of an eligible bot in a tick's groups. */
  lemma PlaceOf(snapshot: map<string, Doc>, delegate: string, groups: seq<Group>, id: string) returns (k: nat, i: nat)
    requires Collected(snapshot, delegate, groups)
    requires id in snapshot && Eligible(snapshot[id], delegate)
    ensures k < |groups| && i < |groups[k].visits|
    ensures groups[k].vault == VaultOf(snapshot[id]) && groups[k].visits[i].id == id
    ensures DistinctBots(groups[k].visits)
    ensures forall j :: 0 <= j < |groups| && j != k ==> Absent(id, groups[j])
  {
    CollectedIsSpread(snapshot, delegate, groups);
    var byVault :| Grouped(snapshot, delegate, byVault) && Follows(groups, byVault);
    var ids := byVault[VaultOf(snapshot[id])];
    k :| 0 <= k < |groups| && groups[k].vault == VaultOf(snapshot[id]);
    i :| 0 <= i < |ids| && ids[i] == id;
    forall j | 0 <= j < |groups| && j != k ensures Absent(id, groups[j]) {
      forall m | 0 <= m < |groups[j].visits| ensures groups[j].visits[m].id != id {
        assert BelongsTo(snapshot, groups[j].visits[m].id, groups[j].vault);
      }
    }
  }
}
