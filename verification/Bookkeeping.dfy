/**
 * The Rust keeper's tick: take the leader lock, run every enabled bot of this delegate vault by
 * vault, record each swap as an order and each completed pass on the bot's document.
 */
module Bookkeeping {
  import opened Wrappers
  import opened Arithmetic
  import opened DocStore
  import opened Decimal
  import Lease
  import Pricing
  import Rebalance
  import Keepers

  const BOTS := "bots"
  const ORDERS := "botOrders"
  const LOCKS := "keeperLocks"
  const LEADER := "leader"

  // ---- reading JSON the way serde_json does ----

  function At(j: Json, f: Field): Json {
    if j.Obj? && f in j.fields then j.fields[f] else Null
  }

  function AsU64(j: Json): Option<nat> {
    if j.Num? && 0 <= j.n < U64 then Some(j.n) else None
  }

  function AsStr(j: Json): Option<string> {
    if j.Str? then Some(j.s) else None
  }

  function AsBool(j: Json): Option<bool> {
    if j.Bool? then Some(j.b) else None
  }

  // ---- one pass of one bot ----

  type FeedQuote = q: Pricing.Quote | Keepers.IsI64(q.price) witness Pricing.Quote(0, 0)

  /** What a pass reads of one mint; a quote that could not be fetched is missing. */
  datatype Asset = Asset(quote: Option<FeedQuote>, balance: nat)

  /** The chain as one pass sees it: the addresses that parse, and the signature of a swap sent now, if it succeeds. */
  datatype Chain = Chain(assets: map<string, Asset>, sends: Option<string>)

  datatype Fill = Fill(inputMint: string, outputMint: string, input: nat, output: nat, signature: string)

  /** A pass aborts on any error before its records are written. */
  datatype Outcome = Aborted | Done(fill: Option<Fill>, state: Option<string>)

  function QuoteOf(chain: Chain, mint: string): Option<FeedQuote> {
    if mint in chain.assets then chain.assets[mint].quote else None
  }

  function Sent(chain: Chain, first: string, second: string, pass: Result<Keepers.Pass, Keepers.Fault>): Outcome {
    match pass
    case Failure(_) => Aborted
    case Success(Pass(Idle, state)) => Done(None, state)
    case Success(Pass(Trade(forward, input, output), state)) =>
      if chain.sends.None? then Aborted
      else if forward then Done(Some(Fill(first, second, input, output, chain.sends.value)), state)
      else Done(Some(Fill(second, first, input, output, chain.sends.value)), state)
  }

  function ViewOf(chain: Chain, first: string, second: string, qa: FeedQuote, qb: FeedQuote, slip: nat,
                  stored: Option<string>): Keepers.View
    requires first in chain.assets && second in chain.assets
  {
    Keepers.View(qa, qb, Rebalance.Holdings(chain.assets[first].balance, chain.assets[second].balance), slip, stored)
  }

  /** What a bot is set up to do with which pair of mints. */
  datatype Config = Config(strategy: Keepers.Bot, first: string, second: string)

  /** The bot's settings as its document gives them, with the keeper's defaults for missing ones. */
  function ConfigOf(bot: Doc): Option<Config> {
    var s := At(Obj(bot), Strategy);
    var kind := AsStr(At(s, Kind)).GetOr("");
    if kind == "dca" then
      Some(Config(Keepers.Dca(TextAt(s, InputAmount, "0")), TextAt(s, InputMint, ""), TextAt(s, OutputMint, "")))
    else if kind == "rebalance" then
      Some(Config(Keepers.Rebalancer(AsU64(At(s, TargetABps)).GetOr(5000), TextAt(s, MaxTradeAmount, "0")),
                  TextAt(s, AssetA, ""), TextAt(s, AssetB, "")))
    else if kind == "grid" then
      Some(Config(Keepers.GridBot(AsU64(At(s, StepBps)).GetOr(200), TextAt(s, TradeAmount, "0")),
                  TextAt(s, BaseMint, ""), TextAt(s, QuoteMint, "")))
    else None
  }

  function TextAt(j: Json, f: Field, default: string): string {
    AsStr(At(j, f)).GetOr(default)
  }

  function SlipOf(bot: Doc, defaultSlip: nat): nat {
    AsU64(At(At(Obj(bot), Strategy), MaxSlippageBps)).GetOr(defaultSlip)
  }

  /** The grid price a bot's document carries. */
  function StoredText(bot: Doc): Option<string> {
    AsStr(At(At(Obj(bot), State), LastGridPrice))
  }

  /** One pass of a bot, from its document. */
  function RunBot(bot: Doc, defaultSlip: nat, chain: Chain): Outcome {
    match ConfigOf(bot)
    case None => Done(None, None)
    case Some(Config(strategy, first, second)) =>
      var slip := SlipOf(bot, defaultSlip);
      if first !in chain.assets || second !in chain.assets then Aborted
      else if strategy.Dca? && ParseU128(strategy.amount).GetOr(0) == 0 then Done(None, None)
      else
        match (QuoteOf(chain, first), QuoteOf(chain, second))
        case (None, _) => Aborted
        case (Some(qa), Some(qb)) =>
          var stored := if strategy.GridBot? then StoredText(bot) else None;
          Sent(chain, first, second, Keepers.RustPass(strategy, ViewOf(chain, first, second, qa, qb, slip, stored)))
        case (Some(qa), None) =>
          if !strategy.GridBot? then Aborted
          else
            // the quote asset's price is only read by a trade
            var v := ViewOf(chain, first, second, qa, qa, slip, StoredText(bot));
            match Keepers.RustMove(qa.price, Keepers.RustLast(v), strategy.stepBps)
            case Failure(_) => Aborted
            case Success(move) =>
              if !move.Hold? && ParseU128(strategy.amount).GetOr(0) > 0 then Aborted
              else Sent(chain, first, second, Keepers.RustPass(Keepers.GridBot(strategy.stepBps, "0"), v))
  }

  // ---- the books ----

  /** The keeper's collections, the rows that are none of its business, and the swaps it has sent per bot. */
  datatype Books = Books(bots: map<string, Doc>, orders: map<string, Doc>, lock: Option<Lease.Lock>,
                         others: Rows, sent: seq<(string, Fill)>)

  function LockRow(row: Doc): Lease.Lock {
    Lease.Lock(AsStr(At(Obj(row), Holder)).GetOr(""), AsU64(At(Obj(row), Exp)).GetOr(0))
  }

  function LockDoc(holder: string, exp: nat): (row: Doc)
    ensures exp < U64 ==> LockRow(row) == Lease.Lock(holder, exp)
  {
    map[Id := Str(LEADER), Holder := Str(holder), Exp := Num(exp)]
  }

  function LockOf(locks: map<string, Doc>): Option<Lease.Lock> {
    if LEADER in locks then Some(LockRow(locks[LEADER])) else None
  }

  function BooksOf(rows: Rows, sent: seq<(string, Fill)>): Books {
    Books(Collection(rows, BOTS), Collection(rows, ORDERS), LockOf(Collection(rows, LOCKS)),
          OthersOf(rows), sent)
  }

  predicate IsKeepers(collection: string) {
    collection == BOTS || collection == ORDERS || collection == LOCKS
  }

  function OthersOf(rows: Rows): Rows {
    map k | k in rows && !IsKeepers(k.0) :: rows[k]
  }

  lemma OthersStay(rows: Rows, name: string, id: string, doc: Doc)
    requires IsKeepers(name)
    ensures OthersOf(rows[(name, id) := doc]) == OthersOf(rows)
    ensures OthersOf(rows - {(name, id)}) == OthersOf(rows)
  {}

  predicate Eligible(bot: Doc, delegate: string) {
    && AsBool(At(Obj(bot), Enabled)).GetOr(false)
    && !AsBool(At(Obj(bot), Deleted)).GetOr(false)
    && AsStr(At(Obj(bot), Delegate)).GetOr("") == delegate
  }

  function VaultOf(bot: Doc): string {
    AsStr(At(Obj(bot), Vault)).GetOr("")
  }

  /** The bots a tick is to run: every eligible one, once, under its own vault. */
  ghost predicate Grouped(snapshot: map<string, Doc>, delegate: string, byVault: map<string, seq<string>>) {
    && (forall v, i :: v in byVault && 0 <= i < |byVault[v]| ==> IsListed(snapshot, delegate, v, byVault[v][i]))
    && (forall v, i, j :: v in byVault && 0 <= i < j < |byVault[v]| ==> byVault[v][i] != byVault[v][j])
    && (forall id :: id in snapshot && Eligible(snapshot[id], delegate) ==>
          IsCollected(byVault, VaultOf(snapshot[id]), id))
    && (forall v :: v in byVault ==> byVault[v] != [])
  }

  predicate IsCollected(byVault: map<string, seq<string>>, vault: string, id: string) {
    vault in byVault && id in byVault[vault]
  }

  predicate IsListed(snapshot: map<string, Doc>, delegate: string, vault: string, id: string) {
    id in snapshot && Eligible(snapshot[id], delegate) && VaultOf(snapshot[id]) == vault
  }

  lemma CollectOne(done: map<string, Doc>, delegate: string, byVault: map<string, seq<string>>, id: string, bot: Doc)
    requires Grouped(done, delegate, byVault) && id !in done
    ensures var vault := VaultOf(bot);
            var next := byVault[vault := (if vault in byVault then byVault[vault] else []) + [id]];
            Grouped(done[id := bot], delegate, if Eligible(bot, delegate) then next else byVault)
  {}

  /** Collects the eligible bots by vault, taking the snapshot in the arbitrary order of a hash map. */
  method GroupByVault(snapshot: map<string, Doc>, delegate: string) returns (byVault: map<string, seq<string>>)
    ensures Grouped(snapshot, delegate, byVault)
  {
    byVault := map[];
    var todo := snapshot.Keys;
    while todo != {}
      invariant todo <= snapshot.Keys
      invariant Grouped(snapshot - todo, delegate, byVault)
      decreases todo
    {
      var id :| id in todo;
      var bot := snapshot[id];
      CollectOne(snapshot - todo, delegate, byVault, id, bot);
      if Eligible(bot, delegate) {
        var vault := VaultOf(bot);
        byVault := byVault[vault := (if vault in byVault then byVault[vault] else []) + [id]];
      }
      assert snapshot - (todo - {id}) == (snapshot - todo)[id := bot];
      todo := todo - {id};
    }
    assert snapshot - todo == snapshot;
  }

  function OrderId(stamp: nat, bot: string): string {
    Show(stamp) + "-" + bot
  }

  function OrderDoc(oid: string, bot: string, vault: string, stamp: nat, f: Fill): Doc {
    map[Id := Str(oid), BotId := Str(bot), Vault := Str(vault), Time := Num(stamp),
        InputMint := Str(f.inputMint), OutputMint := Str(f.outputMint),
        InputAmount := Str(Show(f.input)), OutputAmount := Str(Show(f.output)), Signature := Str(f.signature)]
  }

  lemma OrderHasId(oid: string, bot: string, vault: string, stamp: nat, f: Fill)
    ensures OrderDoc(oid, bot, vault, stamp, f)[Id := Str(oid)] == OrderDoc(oid, bot, vault, stamp, f)
  {}

  function RunsOf(bot: Doc): nat {
    AsU64(At(Obj(bot), RunCount)).GetOr(0)
  }

  function LastRun(bot: Doc): nat {
    AsU64(At(Obj(bot), LastRunAt)).GetOr(0)
  }

  /** The bot's document after a completed pass: three fields are written, the rest is preserved. */
  function Stamped(bot: Doc, done: nat, state: Option<string>): Doc {
    var slot := bot[RunCount := Num(RunsOf(bot) + 1)][LastRunAt := Num(done)];
    if state.Some? then slot[State := Obj(map[LastGridPrice := Str(state.value)])] else slot
  }

  /** A bot's turn: the chain it sees, and the clock at its order id, its order time and its document. */
  datatype Visit = Visit(id: string, chain: Chain, idStamp: nat, orderStamp: nat, doneStamp: nat)

  /** A swap that the chain accepted. */
  function WithSwap(b: Books, v: Visit, fill: Fill): Books {
    b.(sent := b.sent + [(v.id, fill)])
  }

  /** INSERT OR IGNORE of the order a swap leaves. */
  function WithOrder(b: Books, vault: string, v: Visit, fill: Fill): Books {
    var oid := OrderId(v.idStamp, v.id);
    if oid in b.orders then b else b.(orders := b.orders[oid := OrderDoc(oid, v.id, vault, v.orderStamp, fill)])
  }

  /** What a completed pass leaves: its swap on the chain, then the order, then the bot's document. */
  function Recorded(b: Books, bot: Doc, vault: string, v: Visit, fill: Option<Fill>, state: Option<string>): Books {
    var next := if fill.Some? then WithOrder(WithSwap(b, v, fill.value), vault, v, fill.value) else b;
    next.(bots := next.bots[v.id := Stamped(bot, v.doneStamp, state)])
  }

  /** The vault-level checks before any bot of a vault runs. */
  datatype Gate = BadAddress | FetchFails | DelegateMismatch | Open(defaultSlip: nat)

  /** One vault's bots in the order the tick takes them; ineligible bots are filtered out first. */
  datatype Group = Group(vault: string, gate: Gate, visits: seq<Visit>)

  /** Books after some work, and whether the tick goes on. */
  datatype Progress = Progress(books: Books, ok: bool)

  function VisitBot(b: Books, snapshot: map<string, Doc>, delegate: string, vault: string, slip: nat,
                    v: Visit): Progress {
    if v.id !in snapshot || !Eligible(snapshot[v.id], delegate) then Progress(b, true)
    else
      match RunBot(snapshot[v.id], slip, v.chain)
      case Aborted => Progress(b, false)
      case Done(fill, state) => Progress(Recorded(b, snapshot[v.id], vault, v, fill, state), true)
  }

  function VisitBots(b: Books, snapshot: map<string, Doc>, delegate: string, vault: string, slip: nat,
                     visits: seq<Visit>): Progress
    decreases |visits|
  {
    if visits == [] then Progress(b, true)
    else
      var p := VisitBot(b, snapshot, delegate, vault, slip, visits[0]);
      if p.ok then VisitBots(p.books, snapshot, delegate, vault, slip, visits[1..]) else p
  }

  predicate AnyEligible(snapshot: map<string, Doc>, delegate: string, visits: seq<Visit>) {
    exists i :: 0 <= i < |visits| && visits[i].id in snapshot && Eligible(snapshot[visits[i].id], delegate)
  }

  function RunGroup(b: Books, snapshot: map<string, Doc>, delegate: string, g: Group): Progress {
    if !AnyEligible(snapshot, delegate, g.visits) then Progress(b, true)
    else
      match g.gate
      case BadAddress => Progress(b, true)
      case FetchFails => Progress(b, false)
      case DelegateMismatch => Progress(b, true)
      case Open(slip) => VisitBots(b, snapshot, delegate, g.vault, slip, g.visits)
  }

  function RunGroups(b: Books, snapshot: map<string, Doc>, delegate: string, groups: seq<Group>): Progress
    decreases |groups|
  {
    if groups == [] then Progress(b, true)
    else
      var p := RunGroup(b, snapshot, delegate, groups[0]);
      if p.ok then RunGroups(p.books, snapshot, delegate, groups[1..]) else p
  }

  /** What the chain answers during a tick: for each vault, and for each bot when its turn comes. */
  datatype World = World(gates: string -> Gate, turns: string -> Visit)

  /** The bot's turn as the world has it. */
  function VisitOf(w: World, id: string): Visit {
    w.turns(id).(id := id)
  }

  /** The groups are the vaults collected, each with its bots in the collected order. */
  ghost predicate Follows(groups: seq<Group>, byVault: map<string, seq<string>>) {
    && (forall j, k :: 0 <= j < k < |groups| ==> groups[j].vault != groups[k].vault)
    && (forall k :: 0 <= k < |groups| ==>
          groups[k].vault in byVault && Lists(groups[k].visits, byVault[groups[k].vault]))
    && (forall v :: v in byVault ==> HasVault(groups, v))
  }

  predicate HasVault(groups: seq<Group>, vault: string) {
    exists k :: 0 <= k < |groups| && groups[k].vault == vault
  }

  predicate Lists(visits: seq<Visit>, ids: seq<string>) {
    |visits| == |ids| && forall i :: 0 <= i < |visits| ==> visits[i].id == ids[i]
  }

  /** The groups of a tick are those of the bots it found, in some order. */
  ghost predicate Collected(snapshot: map<string, Doc>, delegate: string, groups: seq<Group>) {
    exists byVault :: Grouped(snapshot, delegate, byVault) && Follows(groups, byVault)
  }

  predicate Answered(g: Group, w: World) {
    g.gate == w.gates(g.vault) && forall i :: 0 <= i < |g.visits| ==> g.visits[i] == VisitOf(w, g.visits[i].id)
  }

  /** Walks the collected vaults, with what the world answers for each vault and bot. */
  method AnswerGroups(byVault: map<string, seq<string>>, w: World) returns (groups: seq<Group>)
    ensures Follows(groups, byVault)
    ensures forall k :: 0 <= k < |groups| ==> Answered(groups[k], w)
  {
    groups := [];
    var todo := byVault.Keys;
    while todo != {}
      invariant todo <= byVault.Keys
      invariant forall k :: 0 <= k < |groups| ==> groups[k].vault !in todo
      invariant Follows(groups, byVault - todo)
      invariant forall k :: 0 <= k < |groups| ==> Answered(groups[k], w)
      decreases todo
    {
      var vault :| vault in todo;
      var ids := byVault[vault];
      var visits := seq(|ids|, i requires 0 <= i < |ids| => VisitOf(w, ids[i]));
      ghost var before := groups;
      groups := groups + [Group(vault, w.gates(vault), visits)];
      todo := todo - {vault};
      assert groups[|before|].vault == vault;
      assert forall v :: HasVault(before, v) ==> HasVault(groups, v) by {
        assert forall k :: 0 <= k < |before| ==> before[k] == groups[k];
      }
    }
    assert byVault - todo == byVault;
  }

  datatype Tick = Tick(delegate: string, holder: string, now: nat, groups: seq<Group>)

  /** A whole tick. An aborted one leaves the lock behind: it is released only at the end. */
  function RunTick(b: Books, t: Tick): Progress {
    if Lease.Blocked(b.lock, t.holder, t.now) then Progress(b, true)
    else
      var p := RunGroups(b.(lock := Lease.Acquired(b.lock, t.holder, t.now, Lease.TTL)), b.bots, t.delegate, t.groups);
      if p.ok then Progress(p.books.(lock := Lease.Released(p.books.lock, t.holder)), true) else p
  }

  // ---- the imperative tick over the shared store ----

  lemma CollectionNames()
    ensures BOTS != ORDERS && ORDERS != LOCKS && BOTS != LOCKS
  {
    assert |BOTS| != |ORDERS| && |ORDERS| != |LOCKS| && |BOTS| != |LOCKS|;
  }

  lemma WriteBot(rows: Rows, sent: seq<(string, Fill)>, id: string, doc: Doc)
    ensures BooksOf(rows[(BOTS, id) := doc], sent) == BooksOf(rows, sent).(bots := Collection(rows, BOTS)[id := doc])
  {
    CollectionNames();
    CollectionAfterWrite(rows, BOTS, id, doc);
    OthersStay(rows, BOTS, id, doc);
  }

  lemma AppendOrder(rows: Rows, sent: seq<(string, Fill)>, vault: string, v: Visit, fill: Fill)
    ensures var oid := OrderId(v.idStamp, v.id);
            BooksOf(Inserted(rows, ORDERS, oid, OrderDoc(oid, v.id, vault, v.orderStamp, fill)), sent)
            == WithOrder(BooksOf(rows, sent), vault, v, fill)
  {
    var oid := OrderId(v.idStamp, v.id);
    CollectionNames();
    CollectionAfterWrite(rows, ORDERS, oid, OrderDoc(oid, v.id, vault, v.orderStamp, fill));
    OthersStay(rows, ORDERS, oid, OrderDoc(oid, v.id, vault, v.orderStamp, fill));
    assert (ORDERS, oid) in rows <==> oid in Collection(rows, ORDERS);
  }

  lemma WriteLock(rows: Rows, sent: seq<(string, Fill)>, doc: Doc)
    ensures BooksOf(rows[(LOCKS, LEADER) := doc], sent) == BooksOf(rows, sent).(lock := Some(LockRow(doc)))
  {
    CollectionNames();
    CollectionAfterWrite(rows, LOCKS, LEADER, doc);
    OthersStay(rows, LOCKS, LEADER, doc);
  }

  lemma DeleteLock(rows: Rows, sent: seq<(string, Fill)>)
    ensures BooksOf(rows - {(LOCKS, LEADER)}, sent) == BooksOf(rows, sent).(lock := None)
  {
    CollectionNames();
    CollectionAfterDelete(rows, LOCKS, LEADER);
    OthersStay(rows, LOCKS, LEADER, map[]);
  }

  lemma LockLookup(rows: Rows, sent: seq<(string, Fill)>)
    ensures BooksOf(rows, sent).lock
            == if Lookup(rows, LOCKS, LEADER).Some? then Some(LockRow(Lookup(rows, LOCKS, LEADER).value)) else None
  {}

  class Keeper {
    const db: Store
    var sent: seq<(string, Fill)>

    constructor (db: Store)
      ensures this.db == db && sent == []
    {
      this.db := db;
      sent := [];
    }

    ghost function View(): Books
      reads this, db
    {
      BooksOf(db.rows, sent)
    }

    method AcquireLock(holder: string, now: nat, ttlMs: nat) returns (granted: bool)
      requires now + ttlMs < U64
      modifies db
      ensures granted == !Lease.Blocked(old(View()).lock, holder, now)
      ensures View() == old(View()).(lock := Lease.Acquired(old(View()).lock, holder, now, ttlMs))
    {
      ghost var before := View();
      LockLookup(db.rows, sent);
      var cur := db.Get(LOCKS, LEADER);
      if cur.Some? {
        var exp := AsU64(At(Obj(cur.value), Exp)).GetOr(0);
        var owner := AsStr(At(Obj(cur.value), Holder)).GetOr("");
        if exp > now && owner != holder {
          assert Lease.Blocked(before.lock, holder, now);
          return false;
        }
      }
      assert !Lease.Blocked(before.lock, holder, now);
      var lock := LockDoc(holder, now + ttlMs);
      WriteLock(db.rows, sent, lock);
      db.Put(LOCKS, LEADER, lock);
      granted := true;
    }

    method ReleaseLock(holder: string)
      requires holder != ""
      modifies db
      ensures View() == old(View()).(lock := Lease.Released(old(View()).lock, holder))
    {
      LockLookup(db.rows, sent);
      var cur := db.Get(LOCKS, LEADER);
      if cur.Some? && At(Obj(cur.value), Holder) == Str(holder) {
        DeleteLock(db.rows, sent);
        db.Delete(LOCKS, LEADER);
      }
    }

    method RecordOrder(vault: string, v: Visit, fill: Fill)
      modifies db
      ensures View() == WithOrder(old(View()), vault, v, fill)
    {
      var oid := OrderId(v.idStamp, v.id);
      var order := OrderDoc(oid, v.id, vault, v.orderStamp, fill);
      AppendOrder(db.rows, sent, vault, v, fill);
      OrderHasId(oid, v.id, vault, v.orderStamp, fill);
      var _ := db.Append(ORDERS, order, Some(oid), "");
    }

    method RecordPass(bot: Doc, v: Visit, state: Option<string>)
      modifies db
      ensures View() == old(View()).(bots := old(View()).bots[v.id := Stamped(bot, v.doneStamp, state)])
    {
      var slot := bot[RunCount := Num(RunsOf(bot) + 1)];
      slot := slot[LastRunAt := Num(v.doneStamp)];
      if state.Some? {
        slot := slot[State := Obj(map[LastGridPrice := Str(state.value)])];
      }
      WriteBot(db.rows, sent, v.id, slot);
      db.Put(BOTS, v.id, slot);
    }

    /** Notes the swap the pass has sent, if any, records its order, then the completed pass. */
    method Record(bot: Doc, vault: string, v: Visit, fill: Option<Fill>, state: Option<string>)
      modifies this`sent, db
      ensures View() == Recorded(old(View()), bot, vault, v, fill, state)
    {
      if fill.Some? {
        sent := sent + [(v.id, fill.value)];
        RecordOrder(vault, v, fill.value);
      }
      RecordPass(bot, v, state);
    }

    method RunVisit(snapshot: map<string, Doc>, delegate: string, vault: string, slip: nat, v: Visit) returns (ok: bool)
      modifies this`sent, db
      ensures Progress(View(), ok) == VisitBot(old(View()), snapshot, delegate, vault, slip, v)
    {
      if v.id in snapshot && Eligible(snapshot[v.id], delegate) {
        match RunBot(snapshot[v.id], slip, v.chain)
        case Aborted => return false;
        case Done(fill, state) => Record(snapshot[v.id], vault, v, fill, state);
      }
      ok := true;
    }

    method RunVisits(snapshot: map<string, Doc>, delegate: string, vault: string, slip: nat, visits: seq<Visit>)
      returns (ok: bool)
      modifies this`sent, db
      ensures Progress(View(), ok) == VisitBots(old(View()), snapshot, delegate, vault, slip, visits)
    {
      for i := 0 to |visits|
        invariant VisitBots(old(View()), snapshot, delegate, vault, slip, visits)
                  == VisitBots(View(), snapshot, delegate, vault, slip, visits[i..])
      {
        assert visits[i..][1..] == visits[i + 1..];
        ok := RunVisit(snapshot, delegate, vault, slip, visits[i]);
        if !ok {
          return;
        }
      }
      ok := true;
    }

    method RunVault(snapshot: map<string, Doc>, delegate: string, g: Group) returns (ok: bool)
      modifies this`sent, db
      ensures Progress(View(), ok) == RunGroup(old(View()), snapshot, delegate, g)
    {
      if !AnyEligible(snapshot, delegate, g.visits) {
        return true;
      }
      match g.gate
      case BadAddress => ok := true;
      case FetchFails => ok := false;
      case DelegateMismatch => ok := true;
      case Open(slip) => ok := RunVisits(snapshot, delegate, g.vault, slip, g.visits);
    }

    method RunVaults(snapshot: map<string, Doc>, delegate: string, groups: seq<Group>) returns (ok: bool)
      modifies this`sent, db
      ensures Progress(View(), ok) == RunGroups(old(View()), snapshot, delegate, groups)
    {
      for i := 0 to |groups|
        invariant RunGroups(old(View()), snapshot, delegate, groups)
                  == RunGroups(View(), snapshot, delegate, groups[i..])
      {
        assert groups[i..][1..] == groups[i + 1..];
        ok := RunVault(snapshot, delegate, groups[i]);
        if !ok {
          return;
        }
      }
      ok := true;
    }

    method RunOnce(delegate: string, holder: string, now: nat, w: World) returns (ok: bool, ghost groups: seq<Group>)
      requires holder != "" && now + Lease.TTL < U64
      modifies this`sent, db
      ensures Progress(View(), ok) == RunTick(old(View()), Tick(delegate, holder, now, groups))
      ensures !Lease.Blocked(old(View()).lock, holder, now) ==>
                Collected(old(View()).bots, delegate, groups)
                && forall k :: 0 <= k < |groups| ==> Answered(groups[k], w)
    {
      groups := [];
      var granted := AcquireLock(holder, now, Lease.TTL);
      if !granted {
        return true, [];
      }
      var snapshot := Collection(db.rows, BOTS);
      var byVault := GroupByVault(snapshot, delegate);
      var plan := AnswerGroups(byVault, w);
      assert Collected(snapshot, delegate, plan);
      groups := plan;
      ok := RunVaults(snapshot, delegate, plan);
      if ok {
        ReleaseLock(holder);
      }
    }
  }
}
