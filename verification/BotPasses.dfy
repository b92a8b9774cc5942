/** What one completed pass does for its bot: the swap it sends and the grid price it stores. */
module BotPasses {
  import opened Wrappers
  import opened Arithmetic
  import opened DocStore
  import opened Decimal
  import opened Bookkeeping
  import Grid
  import Keepers
  import Pricing
  import Rebalance
  import Trading

  predicate BothQuoted(chain: Chain, first: string, second: string) {
    first in chain.assets && second in chain.assets && QuoteOf(chain, first).Some? && QuoteOf(chain, second).Some?
  }

  /** A decided trade as a swap of the two mints; a swap the chain refuses aborts the pass. */
  ghost predicate Carries(outcome: Outcome, d: Trading.Decision, chain: Chain, first: string, second: string) {
    match d
    case Idle => outcome.Done? && outcome.fill.None?
    case Trade(forward, input, output) =>
      match chain.sends
      case None => outcome.Aborted?
      case Some(signature) =>
        && outcome.Done?
        && outcome.fill == Some(if forward then Fill(first, second, input, output, signature)
                                else Fill(second, first, input, output, signature))
  }

  /** What a pass reads when both quotes are there. */
  function PassView(bot: Doc, slip: nat, chain: Chain, c: Config): Keepers.View
    requires BothQuoted(chain, c.first, c.second)
  {
    ViewOf(chain, c.first, c.second, QuoteOf(chain, c.first).value, QuoteOf(chain, c.second).value, SlipOf(bot, slip),
           if c.strategy.GridBot? then StoredText(bot) else None)
  }

  // ---- dca ----

  /** A DCA pass swaps its configured amount at the slipped oracle price, or nothing when that rounds to nothing. */
  lemma DcaPassBuys(bot: Doc, slip: nat, chain: Chain, amount: string, first: string, second: string)
    requires ConfigOf(bot) == Some(Config(Keepers.Dca(amount), first, second)) && BothQuoted(chain, first, second)
    requires var v := PassView(bot, slip, chain, ConfigOf(bot).value);
             Keepers.Clean(Keepers.Dca(amount), v) && Keepers.Fits(Keepers.Dca(amount), v)
    ensures Carries(RunBot(bot, slip, chain),
                    Trading.Quoted(true, Value(amount), QuoteOf(chain, first).value, QuoteOf(chain, second).value,
                                   SlipOf(bot, slip)),
                    chain, first, second)
  {
    Keepers.AmountReads(amount);
    Keepers.RustRefinesSpec(Keepers.Dca(amount), PassView(bot, slip, chain, ConfigOf(bot).value));
  }

  // ---- rebalance ----

  /**
   * A rebalance pass sells the overweight asset of the vault for the other one, never more than the
   * vault holds of it or the cap allows.
   */
  lemma RebalancePassSells(bot: Doc, slip: nat, chain: Chain, targetBps: nat, cap: string, first: string,
                           second: string)
    requires ConfigOf(bot) == Some(Config(Keepers.Rebalancer(targetBps, cap), first, second))
    requires BothQuoted(chain, first, second)
    requires var v := PassView(bot, slip, chain, ConfigOf(bot).value);
             Keepers.Clean(Keepers.Rebalancer(targetBps, cap), v) && Keepers.Fits(Keepers.Rebalancer(targetBps, cap), v)
    ensures var c := Rebalance.Setup(QuoteOf(chain, first).value, QuoteOf(chain, second).value, targetBps, Value(cap),
                                     SlipOf(bot, slip));
            var h := Rebalance.Holdings(chain.assets[first].balance, chain.assets[second].balance);
            && Carries(RunBot(bot, slip, chain), Rebalance.Decide(h, c), chain, first, second)
            && match RunBot(bot, slip, chain)
               case Done(Some(fill), _) =>
                 && fill.inputMint in chain.assets
                 && fill.input <= chain.assets[fill.inputMint].balance
                 && fill.input <= Value(cap)
               case _ => true
  {
    var v := PassView(bot, slip, chain, ConfigOf(bot).value);
    Keepers.RustRefinesSpec(Keepers.Rebalancer(targetBps, cap), v);
    Rebalance.DecisionIsFunded(v.holdings, Keepers.SetupOf(v, targetBps, Value(cap)));
  }

  // ---- the grid's reference price across passes ----

  lemma StoredPriceIs(p: int)
    requires Keepers.IsI64(p)
    ensures Keepers.IsStored(Some(ShowInt(p))) && Keepers.StoredPrice(Some(ShowInt(p))) == Some(p)
  {
    var stored := Some(ShowInt(p));
    assert Keepers.IsStored(stored);
    ShownIntReadsBack(p);
    ShownIntReadsBack(Keepers.StoredPrice(stored).value);
  }

  /** What a pass of a grid bot decided, from the documents before and after it. */
  ghost predicate GridStep(before: Doc, after: Doc, o: Grid.Observation, fill: Option<Fill>)
    requires Keepers.IsStored(StoredText(before))
  {
    var state := Keepers.StoredPrice(StoredText(before));
    && Keepers.IsStored(StoredText(after))
    && Keepers.StoredPrice(StoredText(after)) == Grid.After(state, o)
    && (fill.Some? ==> !Grid.Decide(state, o.price, o.stepBps).Hold?)
  }

  lemma StampedState(bot: Doc, done: nat, state: Option<string>)
    ensures StoredText(Stamped(bot, done, state)) == if state.Some? then state else StoredText(bot)
  {}

  /**
   * A completed pass of a grid bot moves the price kept in its document exactly as the grid
   * specification moves its reference, and records a swap only when the grid buys or sells.
   */
  lemma GridPassRefinesGrid(bot: Doc, slip: nat, chain: Chain, done: nat, stepBps: nat, amount: string, first: string,
                            second: string)
    requires ConfigOf(bot) == Some(Config(Keepers.GridBot(stepBps, amount), first, second))
    requires BothQuoted(chain, first, second)
    requires Keepers.Clean(Keepers.GridBot(stepBps, amount), PassView(bot, slip, chain, ConfigOf(bot).value))
    ensures match RunBot(bot, slip, chain)
            case Aborted => true
            case Done(fill, state) =>
              var o := Grid.Observation(QuoteOf(chain, first).value.price, stepBps, true);
              GridStep(bot, Stamped(bot, done, state), o, fill)
  {
    GridSentIsStep(bot, PassView(bot, slip, chain, ConfigOf(bot).value), chain, done, stepBps, amount, first, second);
  }

  /** A grid pass spends its fixed amount of the quote asset when it buys and of the base asset when it sells. */
  lemma GridPassTrades(bot: Doc, slip: nat, chain: Chain, stepBps: nat, amount: string, first: string, second: string)
    requires ConfigOf(bot) == Some(Config(Keepers.GridBot(stepBps, amount), first, second))
    requires BothQuoted(chain, first, second)
    requires var v := PassView(bot, slip, chain, ConfigOf(bot).value);
             Keepers.Clean(Keepers.GridBot(stepBps, amount), v) && Keepers.Fits(Keepers.GridBot(stepBps, amount), v)
    ensures var base, quote, s := QuoteOf(chain, first).value, QuoteOf(chain, second).value, SlipOf(bot, slip);
            Carries(RunBot(bot, slip, chain),
                    match Grid.Decide(Keepers.StoredPrice(StoredText(bot)), base.price, stepBps)
                    case Buy => Trading.Quoted(false, Value(amount), quote, base, s)
                    case Sell => Trading.Quoted(true, Value(amount), base, quote, s)
                    case Hold => Trading.Idle,
                    chain, first, second)
  {
    Keepers.RustRefinesSpec(Keepers.GridBot(stepBps, amount), PassView(bot, slip, chain, ConfigOf(bot).value));
  }

  lemma GridSentIsStep(bot: Doc, v: Keepers.View, chain: Chain, done: nat, stepBps: nat, amount: string,
                       first: string, second: string)
    requires Keepers.Clean(Keepers.GridBot(stepBps, amount), v) && v.stored == StoredText(bot)
    ensures match Sent(chain, first, second, Keepers.RustPass(Keepers.GridBot(stepBps, amount), v))
            case Aborted => true
            case Done(fill, state) =>
              GridStep(bot, Stamped(bot, done, state), Grid.Observation(v.first.price, stepBps, true), fill)
  {
    var pass := Keepers.RustPass(Keepers.GridBot(stepBps, amount), v);
    Keepers.RustRefinesSpec(Keepers.GridBot(stepBps, amount), v);
    SentIsStep(bot, pass, chain, done, v.first.price, stepBps, first, second);
  }

  lemma SentIsStep(bot: Doc, pass: Result<Keepers.Pass, Keepers.Fault>, chain: Chain, done: nat, cur: int, stepBps: nat,
                   first: string, second: string)
    requires Keepers.IsStored(StoredText(bot)) && Keepers.IsI64(cur)
    requires var state := Keepers.StoredPrice(StoredText(bot));
             pass.Success? ==>
               && pass.value.state == Some(ShowInt(Grid.NextReference(state, cur, stepBps)))
               && (pass.value.decision.Trade? ==> !Grid.Decide(state, cur, stepBps).Hold?)
    ensures match Sent(chain, first, second, pass)
            case Aborted => true
            case Done(fill, state) =>
              GridStep(bot, Stamped(bot, done, state), Grid.Observation(cur, stepBps, true), fill)
  {
    NextIsStored(bot, done, cur, stepBps);
  }

  /** Storing the next reference is the grid's own step on what the document stores. */
  lemma NextIsStored(bot: Doc, done: nat, cur: int, stepBps: nat)
    requires Keepers.IsStored(StoredText(bot)) && Keepers.IsI64(cur)
    ensures var state := Keepers.StoredPrice(StoredText(bot));
            var after := StoredText(Stamped(bot, done, Some(ShowInt(Grid.NextReference(state, cur, stepBps)))));
            && Keepers.IsStored(after)
            && Keepers.StoredPrice(after) == Grid.After(state, Grid.Observation(cur, stepBps, true))
  {
    var state := Keepers.StoredPrice(StoredText(bot));
    var next := Grid.NextReference(state, cur, stepBps);
    Keepers.StoredReads(StoredText(bot), cur);
    StoredPriceIs(next);
    StampedState(bot, done, Some(ShowInt(next)));
  }

  // ---- a grid bot over a whole run of passes ----

  /** One pass: what the chain shows, the vault's default slippage, and the clock when it completes. */
  datatype GridPass = GridPass(chain: Chain, slip: nat, done: nat)

  predicate IsGridBot(bot: Doc, g: Config) {
    g.strategy.GridBot? && ConfigOf(bot) == Some(g) && SlipOf(bot, 0) <= Pricing.BPS
  }

  /** Both assets have a positive price and the settings are usable; balances and sends are arbitrary. */
  predicate Tradable(p: GridPass, g: Config) {
    && g.strategy.GridBot?
    && BothQuoted(p.chain, g.first, g.second)
    && Pricing.Priced(QuoteOf(p.chain, g.first).value) && Pricing.Priced(QuoteOf(p.chain, g.second).value)
    && p.slip <= Pricing.BPS && Keepers.IsAmount(g.strategy.amount) && g.strategy.stepBps < U64
  }

  /** The document a pass leaves: an aborted pass writes nothing. */
  function AfterPass(bot: Doc, p: GridPass): Doc {
    match RunBot(bot, p.slip, p.chain)
    case Aborted => bot
    case Done(_, state) => Stamped(bot, p.done, state)
  }

  function Observed(bot: Doc, p: GridPass, g: Config): Grid.Observation
    requires Tradable(p, g)
  {
    Grid.Observation(QuoteOf(p.chain, g.first).value.price, g.strategy.stepBps, RunBot(bot, p.slip, p.chain).Done?)
  }

  predicate AllTradable(passes: seq<GridPass>, g: Config) {
    forall i :: 0 <= i < |passes| ==> Tradable(passes[i], g)
  }

  function AfterPasses(bot: Doc, passes: seq<GridPass>): Doc
    decreases |passes|
  {
    if passes == [] then bot else AfterPasses(AfterPass(bot, passes[0]), passes[1..])
  }

  function Observations(bot: Doc, passes: seq<GridPass>, g: Config): (obs: seq<Grid.Observation>)
    requires AllTradable(passes, g)
    ensures |obs| == |passes|
    decreases |passes|
  {
    if passes == [] then []
    else [Observed(bot, passes[0], g)] + Observations(AfterPass(bot, passes[0]), passes[1..], g)
  }

  /** The stored reference is absent, or a positive price that a keeper wrote. */
  ghost predicate PositiveOrNone(bot: Doc) {
    Keepers.IsStored(StoredText(bot))
    && (Keepers.StoredPrice(StoredText(bot)).Some? ==> Keepers.StoredPrice(StoredText(bot)).value > 0)
  }

  /** Step in force at the swap a pass sends, if it sends one. */
  ghost function SwapStep(bot: Doc, p: GridPass, g: Config): int
    requires Tradable(p, g) && Keepers.IsStored(StoredText(bot))
  {
    match RunBot(bot, p.slip, p.chain)
    case Done(Some(_), _) =>
      var price := QuoteOf(p.chain, g.first).value.price;
      Grid.Step(Grid.Reference(Keepers.StoredPrice(StoredText(bot)), price), g.strategy.stepBps)
    case _ => 0
  }

  lemma StampedConfig(bot: Doc, done: nat, state: Option<string>, slip: nat)
    ensures ConfigOf(Stamped(bot, done, state)) == ConfigOf(bot)
    ensures SlipOf(Stamped(bot, done, state), slip) == SlipOf(bot, slip)
  {
    assert At(Obj(Stamped(bot, done, state)), Strategy) == At(Obj(bot), Strategy);
  }

  lemma GridStepIsPositive(before: Doc, after: Doc, o: Grid.Observation, fill: Option<Fill>)
    requires PositiveOrNone(before) && o.price > 0 && o.completed && o.stepBps >= 0
    requires GridStep(before, after, o, fill)
    ensures PositiveOrNone(after)
    ensures var state := Keepers.StoredPrice(StoredText(before));
            0 <= Grid.FilledStep(state, o)
            && (fill.Some? ==> Grid.FilledStep(state, o) == Grid.Step(Grid.Reference(state, o.price), o.stepBps))
  {
    Grid.PositiveStep(Keepers.StoredPrice(StoredText(before)), o);
  }

  lemma PassIsGridStep(bot: Doc, p: GridPass, g: Config)
    requires IsGridBot(bot, g) && Tradable(p, g) && PositiveOrNone(bot)
    ensures var state, o := Keepers.StoredPrice(StoredText(bot)), Observed(bot, p, g);
            && IsGridBot(AfterPass(bot, p), g)
            && PositiveOrNone(AfterPass(bot, p))
            && Keepers.StoredPrice(StoredText(AfterPass(bot, p))) == Grid.After(state, o)
            && SwapStep(bot, p, g) <= Grid.FilledStep(state, o)
  {
    var o := Observed(bot, p, g);
    PassIsClean(bot, p, g);
    GridPassRefinesGrid(bot, p.slip, p.chain, p.done, g.strategy.stepBps, g.strategy.amount, g.first, g.second);
    match RunBot(bot, p.slip, p.chain)
    case Aborted =>
    case Done(fill, state) =>
      StampedConfig(bot, p.done, state, 0);
      GridStepIsPositive(bot, Stamped(bot, p.done, state), o, fill);
  }

  lemma PassIsClean(bot: Doc, p: GridPass, g: Config)
    requires IsGridBot(bot, g) && Tradable(p, g) && Keepers.IsStored(StoredText(bot))
    ensures Keepers.Clean(g.strategy, PassView(bot, p.slip, p.chain, g))
  {}

  ghost function SwapSteps(bot: Doc, passes: seq<GridPass>, g: Config): int
    requires IsGridBot(bot, g) && AllTradable(passes, g) && PositiveOrNone(bot)
    decreases |passes|
  {
    if passes == [] then 0
    else
      PassIsGridStep(bot, passes[0], g);
      SwapStep(bot, passes[0], g) + SwapSteps(AfterPass(bot, passes[0]), passes[1..], g)
  }

  lemma {:induction false} PassesRefineGrid(bot: Doc, passes: seq<GridPass>, g: Config)
    requires IsGridBot(bot, g) && AllTradable(passes, g) && PositiveOrNone(bot)
    ensures var state, obs := Keepers.StoredPrice(StoredText(bot)), Observations(bot, passes, g);
            && PositiveOrNone(AfterPasses(bot, passes))
            && Keepers.StoredPrice(StoredText(AfterPasses(bot, passes))) == Grid.Stored(state, obs)
            && SwapSteps(bot, passes, g) <= Grid.SumOfFilledSteps(state, obs)
    decreases |passes|
  {
    if passes == [] {
    } else {
      var next := AfterPass(bot, passes[0]);
      PassIsGridStep(bot, passes[0], g);
      PassesRefineGrid(next, passes[1..], g);
      assert Observations(bot, passes, g)[1..] == Observations(next, passes[1..], g);
    }
  }

  /**
   * A grid bot that starts without stored state, over any run of passes, aborted anywhere: the steps
   * in force at the swaps it sent add up to at most the total variation of the prices it read, and
   * the price its document ends with is one it read.
   */
  lemma GridSwapsWithinVariation(bot: Doc, passes: seq<GridPass>, g: Config)
    requires IsGridBot(bot, g) && AllTradable(passes, g) && StoredText(bot).None?
    ensures SwapSteps(bot, passes, g) <= Grid.Variation(Observations(bot, passes, g))
    ensures var end := StoredText(AfterPasses(bot, passes));
            end.Some? ==>
              exists i :: 0 <= i < |passes| && end == Some(ShowInt(QuoteOf(passes[i].chain, g.first).value.price))
  {
    PassesRefineGrid(bot, passes, g);
    var obs := Observations(bot, passes, g);
    Grid.FillsWithinVariation(obs);
    Grid.ReferenceWasObserved(None, obs);
    var end := StoredText(AfterPasses(bot, passes));
    if end.Some? {
      var i :| 0 <= i < |obs| && Grid.Stored(None, obs) == Some(obs[i].price);
      ObservedAt(bot, passes, g, i);
      assert end == Some(ShowInt(QuoteOf(passes[i].chain, g.first).value.price));
    }
  }

  lemma {:induction false} ObservedAt(bot: Doc, passes: seq<GridPass>, g: Config, i: nat)
    requires AllTradable(passes, g) && i < |passes|
    ensures Observations(bot, passes, g)[i].price == QuoteOf(passes[i].chain, g.first).value.price
    decreases i
  {
    if i == 0 {
    } else {
      ObservedAt(AfterPass(bot, passes[0]), passes[1..], g, i - 1);
    }
  }
}
