/** What a bot does, read off the fields of its document: which asset it spends, how much, and when. */
module BotDocuments {
  import opened Wrappers
  import opened Arithmetic
  import opened DocStore
  import opened Decimal
  import opened Bookkeeping
  import opened BotPasses
  import opened Pricing
  import Grid
  import Keepers
  import Rebalance
  import Trading

  /** A field holds this text, or holds no text and this is its default. */
  predicate Says(s: map<Field, Json>, f: Field, text: string, default: string) {
    if f in s && s[f].Str? then s[f] == Str(text) else text == default
  }

  /** A field holds this 64-bit count, or holds none and this is its default. */
  predicate Counts(s: map<Field, Json>, f: Field, n: nat, default: nat) {
    if f in s && s[f].Num? && 0 <= s[f].n < U64 then s[f] == Num(n) else n == default
  }

  predicate HasStrategy(bot: Doc, s: map<Field, Json>, kind: string, slip: nat, vaultSlip: nat) {
    && Strategy in bot && bot[Strategy] == Obj(s) && Kind in s && s[Kind] == Str(kind)
    && Counts(s, MaxSlippageBps, slip, vaultSlip)
  }

  lemma KindsDiffer()
    ensures "dca" != "grid" && "rebalance" != "grid" && "dca" != "rebalance"
  {
    assert |"dca"| != |"grid"| && |"rebalance"| != |"grid"| && |"dca"| != |"rebalance"|;
  }

  /** A swap as the chain takes it; nothing is sent for a side that is zero. */
  function Swapped(chain: Chain, input: string, output: string, amount: nat, bought: nat, state: Option<string>)
    : Outcome
  {
    if amount == 0 || bought == 0 then Done(None, state)
    else
      match chain.sends
      case None => Aborted
      case Some(signature) => Done(Some(Fill(input, output, amount, bought, signature)), state)
  }

  predicate TradesAtGoodPrices(chain: Chain, first: string, second: string, slip: nat) {
    && BothQuoted(chain, first, second)
    && Priced(QuoteOf(chain, first).value) && Priced(QuoteOf(chain, second).value) && slip <= BPS
  }

  // ---- dca ----

  lemma DcaIsRead(bot: Doc, s: map<Field, Json>, slip: nat, vaultSlip: nat, input: string, output: string,
                  amount: string)
    requires HasStrategy(bot, s, "dca", slip, vaultSlip)
    requires Says(s, InputMint, input, "") && Says(s, OutputMint, output, "") && Says(s, InputAmount, amount, "0")
    ensures ConfigOf(bot) == Some(Config(Keepers.Dca(amount), input, output)) && SlipOf(bot, vaultSlip) == slip
  {}

  /** A DCA bot spends its `inputAmount` of its `inputMint` on its `outputMint`, at its own or the vault's slippage. */
  lemma DcaBotSpends(bot: Doc, s: map<Field, Json>, slip: nat, vaultSlip: nat, input: string, output: string,
                     amount: string, chain: Chain)
    requires HasStrategy(bot, s, "dca", slip, vaultSlip)
    requires Says(s, InputMint, input, "") && Says(s, OutputMint, output, "") && Says(s, InputAmount, amount, "0")
    requires TradesAtGoodPrices(chain, input, output, slip) && Keepers.IsAmount(amount)
    requires Keepers.TradeFits(Value(amount), QuoteOf(chain, input).value, QuoteOf(chain, output).value, slip)
    ensures var bought := FairOutput(Value(amount), QuoteOf(chain, input).value, QuoteOf(chain, output).value, slip);
            RunBot(bot, vaultSlip, chain) == Swapped(chain, input, output, Value(amount), bought, None)
  {
    DcaIsRead(bot, s, slip, vaultSlip, input, output, amount);
    Keepers.AmountReads(amount);
    Keepers.RustRefinesSpec(Keepers.Dca(amount), PassView(bot, vaultSlip, chain, ConfigOf(bot).value));
  }

  // ---- rebalance ----

  lemma RebalancerIsRead(bot: Doc, s: map<Field, Json>, slip: nat, vaultSlip: nat, a: string, b: string,
                         targetBps: nat, cap: string)
    requires HasStrategy(bot, s, "rebalance", slip, vaultSlip)
    requires Says(s, AssetA, a, "") && Says(s, AssetB, b, "")
    requires Counts(s, TargetABps, targetBps, 5000) && Says(s, MaxTradeAmount, cap, "0")
    ensures ConfigOf(bot) == Some(Config(Keepers.Rebalancer(targetBps, cap), a, b)) && SlipOf(bot, vaultSlip) == slip
  {
    KindsDiffer();
  }

  /** What a rebalancing pass may do: sell the asset that is over its share, within balance and cap. */
  predicate SellsOverweight(outcome: Outcome, chain: Chain, a: string, b: string, c: Rebalance.Setup)
    requires a in chain.assets && b in chain.assets && Rebalance.Sound(c)
  {
    var va, vb := Rebalance.Usd(chain.assets[a].balance, c.qa), Rebalance.Usd(chain.assets[b].balance, c.qb);
    match outcome
    case Done(Some(fill), _) =>
      && chain.sends == Some(fill.signature)
      && 0 < fill.input <= c.cap
      && (|| (&& (fill.inputMint, fill.outputMint) == (a, b)
              && va * BPS > (va + vb) * c.targetBps
              && fill.input <= chain.assets[a].balance
              && fill.output == FairOutput(fill.input, c.qa, c.qb, c.slip))
          || (&& (fill.inputMint, fill.outputMint) == (b, a)
              && (va + 1) * BPS <= (va + vb) * c.targetBps
              && fill.input <= chain.assets[b].balance
              && fill.output == FairOutput(fill.input, c.qb, c.qa, c.slip)))
    case Done(None, state) => state.None?
    case Aborted => chain.sends.None?
  }

  /**
   * A rebalancer keeps `assetA` at its `targetABps` share, half without one: it sells that asset for
   * `assetB` when it is over its share, the other way when it is under, and never more than `maxTradeAmount`.
   */
  lemma RebalancerSellsOverweight(bot: Doc, s: map<Field, Json>, slip: nat, vaultSlip: nat, a: string, b: string,
                                  targetBps: nat, cap: string, chain: Chain)
    requires HasStrategy(bot, s, "rebalance", slip, vaultSlip)
    requires Says(s, AssetA, a, "") && Says(s, AssetB, b, "")
    requires Counts(s, TargetABps, targetBps, 5000) && Says(s, MaxTradeAmount, cap, "0")
    requires TradesAtGoodPrices(chain, a, b, slip) && Keepers.IsAmount(cap)
    requires var c := Rebalance.Setup(QuoteOf(chain, a).value, QuoteOf(chain, b).value, targetBps, Value(cap), slip);
             && Rebalance.Sound(c)
             && Keepers.RebalanceFits(Rebalance.Holdings(chain.assets[a].balance, chain.assets[b].balance), c)
    ensures var c := Rebalance.Setup(QuoteOf(chain, a).value, QuoteOf(chain, b).value, targetBps, Value(cap), slip);
            && SellsOverweight(RunBot(bot, vaultSlip, chain), chain, a, b, c)
            && Carries(RunBot(bot, vaultSlip, chain),
                       Rebalance.Decide(Rebalance.Holdings(chain.assets[a].balance, chain.assets[b].balance), c),
                       chain, a, b)
  {
    RebalancerIsRead(bot, s, slip, vaultSlip, a, b, targetBps, cap);
    var c := Rebalance.Setup(QuoteOf(chain, a).value, QuoteOf(chain, b).value, targetBps, Value(cap), slip);
    var h := Rebalance.Holdings(chain.assets[a].balance, chain.assets[b].balance);
    Keepers.AmountReads(cap);
    Keepers.RustRefinesSpec(Keepers.Rebalancer(targetBps, cap), PassView(bot, vaultSlip, chain, ConfigOf(bot).value));
    Rebalance.DecisionIsFunded(h, c);
    Rebalance.DirectionByShare(h, c);
  }

  // ---- grid ----

  lemma GridIsRead(bot: Doc, s: map<Field, Json>, slip: nat, vaultSlip: nat, base: string, quote: string,
                   stepBps: nat, amount: string)
    requires HasStrategy(bot, s, "grid", slip, vaultSlip)
    requires Says(s, BaseMint, base, "") && Says(s, QuoteMint, quote, "")
    requires Counts(s, StepBps, stepBps, 200) && Says(s, TradeAmount, amount, "0")
    ensures ConfigOf(bot) == Some(Config(Keepers.GridBot(stepBps, amount), base, quote))
    ensures SlipOf(bot, vaultSlip) == slip
  {
    KindsDiffer();
  }

  /** The price a grid bot measures from: the one its document carries, or the current one. */
  predicate MeasuresFrom(bot: Doc, cur: int, last: int) {
    if State in bot && bot[State].Obj? && LastGridPrice in bot[State].fields && bot[State].fields[LastGridPrice].Str?
    then bot[State].fields[LastGridPrice] == Str(ShowInt(last))
    else last == cur
  }

  /**
   * A grid bot watches the price of its `baseMint`. When that has fallen by more than its `stepBps` share of
   * the last fill, 2 % without one, it spends its `tradeAmount` of `quoteMint` on the base; when it has risen
   * by more, that amount of the base on the quote; and it remembers the price of its last fill.
   */
  lemma GridBotTrades(bot: Doc, s: map<Field, Json>, slip: nat, vaultSlip: nat, base: string, quote: string,
                      stepBps: nat, amount: string, last: int, chain: Chain)
    requires HasStrategy(bot, s, "grid", slip, vaultSlip)
    requires Says(s, BaseMint, base, "") && Says(s, QuoteMint, quote, "")
    requires Counts(s, StepBps, stepBps, 200) && Says(s, TradeAmount, amount, "0")
    requires TradesAtGoodPrices(chain, base, quote, slip) && Keepers.IsAmount(amount) && stepBps < U64
    requires MeasuresFrom(bot, QuoteOf(chain, base).value.price, last) && 0 <= last < I64
    requires Keepers.TradeFits(Value(amount), QuoteOf(chain, base).value, QuoteOf(chain, quote).value, slip)
    requires Keepers.TradeFits(Value(amount), QuoteOf(chain, quote).value, QuoteOf(chain, base).value, slip)
    ensures var qb, qq, x := QuoteOf(chain, base).value, QuoteOf(chain, quote).value, Value(amount);
            RunBot(bot, vaultSlip, chain)
            == if (last - qb.price + 1) * BPS > last * stepBps then
                 Swapped(chain, quote, base, x, FairOutput(x, qq, qb, slip), Some(ShowInt(qb.price)))
               else if (qb.price - last + 1) * BPS > last * stepBps then
                 Swapped(chain, base, quote, x, FairOutput(x, qb, qq, slip), Some(ShowInt(qb.price)))
               else Done(None, Some(ShowInt(last)))
  {
    GridIsRead(bot, s, slip, vaultSlip, base, quote, stepBps, amount);
    var v := PassView(bot, vaultSlip, chain, ConfigOf(bot).value);
    LastIsReference(bot, v.first.price, last);
    GridPassByPrices(v, stepBps, amount, last);
    assert RunBot(bot, vaultSlip, chain)
           == Sent(chain, base, quote, Keepers.RustPass(Keepers.GridBot(stepBps, amount), v));
  }

  lemma GridPassByPrices(v: Keepers.View, stepBps: nat, amount: string, last: int)
    requires Keepers.Clean(Keepers.GridBot(stepBps, amount), v) && 0 <= last < I64
    requires Grid.Reference(Keepers.StoredPrice(v.stored), v.first.price) == last
    requires Keepers.TradeFits(Value(amount), v.first, v.second, v.slip)
    requires Keepers.TradeFits(Value(amount), v.second, v.first, v.slip)
    ensures var cur, x := v.first.price, Value(amount);
            Keepers.RustPass(Keepers.GridBot(stepBps, amount), v)
            == Success(if (last - cur + 1) * BPS > last * stepBps then
                         Keepers.Pass(Trading.Quoted(false, x, v.second, v.first, v.slip), Some(ShowInt(cur)))
                       else if (cur - last + 1) * BPS > last * stepBps then
                         Keepers.Pass(Trading.Quoted(true, x, v.first, v.second, v.slip), Some(ShowInt(cur)))
                       else Keepers.Pass(Trading.Idle, Some(ShowInt(last))))
  {
    Grid.DecideByPrices(last, v.first.price, stepBps);
    DecideFromReference(Keepers.StoredPrice(v.stored), v.first.price, last, stepBps);
    Keepers.RustRefinesSpec(Keepers.GridBot(stepBps, amount), v);
  }

  lemma LastIsReference(bot: Doc, cur: int, last: int)
    requires MeasuresFrom(bot, cur, last) && Keepers.IsI64(last)
    ensures Keepers.IsStored(StoredText(bot)) && Grid.Reference(Keepers.StoredPrice(StoredText(bot)), cur) == last
  {
    if StoredText(bot).Some? {
      StoredPriceIs(last);
    }
  }

  lemma DecideFromReference(state: Option<int>, cur: int, last: int, stepBps: int)
    requires Grid.Reference(state, cur) == last
    ensures Grid.Decide(state, cur, stepBps) == Grid.Decide(Some(last), cur, stepBps)
    ensures Grid.NextReference(state, cur, stepBps) == Grid.NextReference(Some(last), cur, stepBps)
  {}

  // ---- no strategy ----

  /** A bot whose document names none of the three strategies does nothing, but its pass counts. */
  lemma UnknownStrategyDoesNothing(bot: Doc, vaultSlip: nat, chain: Chain)
    requires Strategy in bot && bot[Strategy].Obj? ==>
               var s := bot[Strategy].fields;
               Kind !in s || s[Kind] !in {Str("dca"), Str("rebalance"), Str("grid")}
    ensures RunBot(bot, vaultSlip, chain) == Done(None, None)
  {}

  // ---- passes that fail ----

  /**
   * A pass fails when a mint is no address, or a price it needs cannot be read. A DCA bot with nothing to
   * spend needs no price, and a grid bot needs the quote asset's price only for a trade.
   */
  lemma PassNeedsPrices(bot: Doc, vaultSlip: nat, chain: Chain, c: Config)
    requires ConfigOf(bot) == Some(c)
    ensures var r := RunBot(bot, vaultSlip, chain);
            var parse := c.first in chain.assets && c.second in chain.assets;
            && (!parse ==> r == Aborted)
            && (parse && c.strategy.Dca? && ParseU128(c.strategy.amount).GetOr(0) == 0 ==> r == Done(None, None))
            && (parse && !BothQuoted(chain, c.first, c.second) ==>
                  && (c.strategy.Dca? && ParseU128(c.strategy.amount).GetOr(0) > 0 ==> r == Aborted)
                  && (c.strategy.Rebalancer? ==> r == Aborted))
            && (parse && c.strategy.GridBot? && QuoteOf(chain, c.first).None? ==> r == Aborted)
  {}

  /** Without the quote asset's price a grid bot still watches: it fails only when it would trade. */
  lemma GridWatchesWithoutQuote(bot: Doc, vaultSlip: nat, chain: Chain, base: string, quote: string, stepBps: nat,
                                amount: string, last: int)
    requires ConfigOf(bot) == Some(Config(Keepers.GridBot(stepBps, amount), base, quote)) && stepBps < U64
    requires base in chain.assets && quote in chain.assets
    requires QuoteOf(chain, base).Some? && QuoteOf(chain, quote).None?
    requires MeasuresFrom(bot, QuoteOf(chain, base).value.price, last) && 0 <= last < I64
    requires Keepers.IsAmount(amount)
    ensures var cur := QuoteOf(chain, base).value.price;
            var moves := (last - cur + 1) * BPS > last * stepBps || (cur - last + 1) * BPS > last * stepBps;
            RunBot(bot, vaultSlip, chain)
            == if moves && Value(amount) > 0 then Aborted else Done(None, Some(ShowInt(if moves then cur else last)))
  {
    var qa := QuoteOf(chain, base).value;
    var cur := qa.price;
    var v := ViewOf(chain, base, quote, qa, qa, SlipOf(bot, vaultSlip), StoredText(bot));
    LastIsReference(bot, cur, last);
    Keepers.AmountReads(amount);
    Keepers.StoredReads(v.stored, cur);
    GridMoveByPrices(cur, last, stepBps);
    NothingTraded(v, last, stepBps);
  }

  lemma GridMoveByPrices(cur: int, last: int, stepBps: nat)
    requires 0 <= last < I64 && stepBps < U64
    ensures Keepers.RustMove(cur, last, stepBps)
            == Success(if (last - cur + 1) * BPS > last * stepBps then Grid.Buy
                       else if (cur - last + 1) * BPS > last * stepBps then Grid.Sell
                       else Grid.Hold)
  {
    Grid.DecideByPrices(last, cur, stepBps);
    Keepers.GridStaysInRange(last, stepBps);
  }

  lemma NothingTraded(v: Keepers.View, last: int, stepBps: nat)
    requires Keepers.IsI64(v.first.price) && Keepers.IsI64(v.second.price) && Keepers.RustLast(v) == last
    ensures match Keepers.RustMove(v.first.price, last, stepBps)
            case Success(move) =>
              Keepers.RustPass(Keepers.GridBot(stepBps, "0"), v)
              == Success(Keepers.Pass(Trading.Idle, Some(ShowInt(if move.Hold? then last else v.first.price))))
            case Failure(_) => true
  {
    ZeroText();
    Keepers.AmountReads("0");
  }

  // ---- what a completed pass writes ----

  /**
   * A completed pass counts one more run, from none when the document holds no count, dates it, stores
   * the grid price if there is one, and keeps every other field.
   */
  lemma PassIsRecorded(bot: Doc, n: nat, done: nat, state: Option<string>)
    requires Counts(bot, RunCount, n, 0)
    ensures var next := Stamped(bot, done, state);
            && RunCount in next && next[RunCount] == Num(n + 1)
            && LastRunAt in next && next[LastRunAt] == Num(done)
            && (state.Some? ==> State in next && next[State] == Obj(map[LastGridPrice := Str(state.value)]))
            && (forall f :: f != RunCount && f != LastRunAt && (f != State || state.None?) ==>
                  (f in next <==> f in bot) && (f in bot ==> next[f] == bot[f]))
  {}
}
