/**
 * One pass of a bot, as the Rust keeper and the TypeScript keeper compute it. The Rust side works
 * on u128 and i128 with overflow detected, the TypeScript side on unbounded integers that throw on
 * a zero divisor or a negative exponent. Both refine the same specification.
 */
module Keepers {
  import opened Wrappers
  import opened Arithmetic
  import opened Pricing
  import opened Trading
  import opened Decimal
  import Rebalance
  import Grid

  datatype Fault = Overflow | DivisionByZero | RangeError | BadNumber

  datatype Bot =
    | Dca(amount: string)
    | Rebalancer(targetBps: nat, cap: string)
    | GridBot(stepBps: nat, amount: string)

  /** What a pass reads: quotes and balances of the bot's two assets, the slippage and the stored price. */
  datatype View = View(first: Quote, second: Quote, holdings: Rebalance.Holdings, slip: nat, stored: Option<string>)

  /** What a pass asks for: a swap or none, and the grid price to store, if any. */
  datatype Pass = Pass(decision: Decision, state: Option<string>)

  // ---- Rust: checked u128 arithmetic ----

  function Checked(n: nat): Result<nat, Fault> {
    if n < U128 then Success(n) else Failure(Overflow)
  }

  /** `price as u128`: two's complement reinterpretation of a negative price. */
  function AsU128(p: int): nat
    requires -U128 <= p < U128
  {
    if p >= 0 then p else p + U128
  }

  predicate IsI64(p: int) {
    -I64 <= p < I64
  }

  function RustFair(x: nat, from: Quote, to: Quote, slip: nat): Result<nat, Fault>
    requires IsI64(from.price) && IsI64(to.price)
  {
    var scaled :- RustScale(x, from, to.expo);
    RustFinish(scaled, to.price, slip)
  }

  function RustScale(x: nat, from: Quote, expo: int): Result<nat, Fault>
    requires IsI64(from.price)
  {
    var shift := from.expo - expo;
    var value :- Checked(x * AsU128(from.price));
    var power :- Checked(Pow10(if shift >= 0 then shift else -shift));
    if shift >= 0 then Checked(value * power) else Success(Quotient(value, power))
  }

  function RustFinish(scaled: nat, price: int, slip: nat): Result<nat, Fault>
    requires IsI64(price)
  {
    if price == 0 then Failure(DivisionByZero)
    else if slip > BPS then Failure(Overflow)
    else
      var slipped :- Checked(Quotient(scaled, AsU128(price)) * (BPS - slip));
      Success(slipped / BPS)
  }

  function Quotient(n: nat, d: nat): nat
    requires d > 0
  {
    FloorAtLeast(n, d, 0);
    n / d
  }

  /** `fair_output`, updating its local step by step: the slipped oracle price, or an overflow. */
  method RustFairOutput(x: nat, from: Quote, to: Quote, slip: nat) returns (r: Result<nat, Fault>)
    requires IsI64(from.price) && IsI64(to.price)
    ensures Priced(from) && Priced(to) && slip <= BPS ==>
              r == if FairFits(x, from, to, slip)
                   then Success(FairOutput(x, from, to, slip))
                   else Failure(Overflow)
    ensures to.price == 0 ==> r.Failure?
    ensures Priced(to) && slip > BPS ==> r == Failure(Overflow)
    ensures r == RustFair(x, from, to, slip)
  {
    RustFairMeans(x, from, to, slip);
    var shift := from.expo - to.expo;
    var fair :- Checked(x * AsU128(from.price));
    var power :- Checked(Pow10(if shift >= 0 then shift else -shift));
    if shift >= 0 {
      fair :- Checked(fair * power);
    } else {
      fair := Quotient(fair, power);
    }
    if to.price == 0 {
      return Failure(DivisionByZero);
    }
    fair := Quotient(fair, AsU128(to.price));
    if slip > BPS {
      return Failure(Overflow);
    }
    fair :- Checked(fair * (BPS - slip));
    fair := fair / BPS;
    r := Success(fair);
  }

  function RustTrade(forward: bool, x: nat, from: Quote, to: Quote, slip: nat): Result<Decision, Fault>
    requires IsI64(from.price) && IsI64(to.price)
  {
    if x == 0 then Success(Idle)
    else
      var output :- RustFair(x, from, to, slip);
      Success(if output == 0 then Idle else Trade(forward, x, output))
  }

  function RustUsd(amount: nat, q: Quote): Result<nat, Fault>
    requires IsI64(q.price)
  {
    var value :- Checked(amount * AsU128(q.price));
    if q.expo > 0 then Failure(Overflow)
    else
      var power :- Checked(Pow10(-q.expo));
      Success(Quotient(value, power))
  }

  function RustSize(excess: nat, q: Quote, cap: nat): Result<nat, Fault>
    requires IsI64(q.price) && q.expo <= 0
  {
    var power :- Checked(Pow10(-q.expo));
    var value :- Checked(excess * power);
    if q.price == 0 then Failure(DivisionByZero)
    else
      var size := Quotient(value, AsU128(q.price));
      Success(if size > cap then cap else size)
  }

  function RustSell(forward: bool, excess: nat, from: Quote, to: Quote, cap: nat, slip: nat): Result<Decision, Fault>
    requires IsI64(from.price) && IsI64(to.price) && from.expo <= 0
  {
    var size :- RustSize(excess, from, cap);
    RustTrade(forward, size, from, to, slip)
  }

  function RustRebalance(v: View, targetBps: nat, cap: nat): Result<Decision, Fault>
    requires IsI64(v.first.price) && IsI64(v.second.price)
  {
    var va :- RustUsd(v.holdings.a, v.first);
    var vb :- RustUsd(v.holdings.b, v.second);
    var total :- Checked(va + vb);
    if total == 0 then Success(Idle)
    else
      var weighted :- Checked(total * targetBps);
      var target := weighted / BPS;
      if va > target then RustSell(true, va - target, v.first, v.second, cap, v.slip)
      else if target > total then Failure(Overflow)
      else if vb > total - target then RustSell(false, vb - (total - target), v.second, v.first, cap, v.slip)
      else Success(Idle)
  }

  predicate IsI128(n: int) {
    -(U128 / 2) <= n < U128 / 2
  }

  /** The stored price, or the current one when nothing usable is stored. */
  function RustLast(v: View): int {
    if v.stored.Some? then ParseI128(v.stored.value).GetOr(v.first.price) else v.first.price
  }

  /** Which way the grid moves, in i128 arithmetic. */
  function RustMove(cur: int, last: int, stepBps: nat): Result<Grid.Move, Fault> {
    if !IsI128(last * stepBps) then Failure(Overflow)
    else
      var step := TruncDiv(last * stepBps, BPS);
      if !IsI128(last - step) then Failure(Overflow)
      else if cur <= last - step then Success(Grid.Buy)
      else if !IsI128(last + step) then Failure(Overflow)
      else Success(if cur >= last + step then Grid.Sell else Grid.Hold)
  }

  function RustGrid(v: View, last: int, stepBps: nat, amount: nat): Result<Pass, Fault>
    requires IsI64(v.first.price) && IsI64(v.second.price)
  {
    var move :- RustMove(v.first.price, last, stepBps);
    var d :- match move
             case Buy => RustTrade(false, amount, v.second, v.first, v.slip)
             case Sell => RustTrade(true, amount, v.first, v.second, v.slip)
             case Hold => Success(Idle);
    Success(Pass(d, Some(ShowInt(if move.Hold? then last else v.first.price))))
  }

  /** The strategy match of the Rust keeper; amounts that do not parse count as zero. */
  function RustPass(bot: Bot, v: View): Result<Pass, Fault>
    requires IsI64(v.first.price) && IsI64(v.second.price)
  {
    match bot
    case Dca(amount) =>
      var d :- RustTrade(true, ParseU128(amount).GetOr(0), v.first, v.second, v.slip);
      Success(Pass(d, None))
    case Rebalancer(targetBps, cap) =>
      var d :- RustRebalance(v, targetBps, ParseU128(cap).GetOr(0));
      Success(Pass(d, None))
    case GridBot(stepBps, amount) => RustGrid(v, RustLast(v), stepBps, ParseU128(amount).GetOr(0))
  }

  // ---- TypeScript: unbounded integers ----

  function TsPow10(n: int): Result<nat, Fault> {
    if n < 0 then Failure(RangeError) else Success(Pow10(n))
  }

  function TsScale(x: int, from: Quote, expo: int): int {
    var shift := from.expo - expo;
    if shift >= 0 then x * from.price * Pow10(shift) else TruncDiv(x * from.price, Pow10(-shift))
  }

  function TsFair(x: int, from: Quote, to: Quote, slip: int): Result<int, Fault> {
    if to.price == 0 then Failure(DivisionByZero)
    else Success(TruncDiv(TruncDiv(TsScale(x, from, to.expo), to.price) * (BPS - slip), BPS))
  }

  function TsTrade(forward: bool, x: int, from: Quote, to: Quote, slip: int): Result<Decision, Fault> {
    if x <= 0 then Success(Idle)
    else
      var output :- TsFair(x, from, to, slip);
      Success(if output <= 0 then Idle else Trade(forward, x, output))
  }

  /** `trade`, reassigning its local: the common specification at positive prices, and never a trade of nothing. */
  method TsTradeStepwise(forward: bool, x: int, from: Quote, to: Quote, slip: int) returns (r: Result<Decision, Fault>)
    ensures Priced(from) && Priced(to) && x >= 0 && 0 <= slip <= BPS ==>
              r == Success(Quoted(forward, x, from, to, slip))
    ensures x <= 0 ==> r == Success(Idle)
    ensures x > 0 ==> (r.Failure? <==> to.price == 0)
    ensures r == TsTrade(forward, x, from, to, slip)
  {
    if Priced(from) && Priced(to) && x >= 0 && 0 <= slip <= BPS {
      TsTradeIsSpec(forward, x, from, to, slip);
    }
    if x <= 0 {
      return Success(Idle);
    }
    var shift := from.expo - to.expo;
    var fair := x * from.price;
    fair := if shift >= 0 then fair * Pow10(shift) else TruncDiv(fair, Pow10(-shift));
    if to.price == 0 {
      return Failure(DivisionByZero);
    }
    fair := TruncDiv(fair, to.price);
    var output := TruncDiv(fair * (BPS - slip), BPS);
    r := Success(if output <= 0 then Idle else Trade(forward, x, output));
  }

  function TsUsd(amount: int, q: Quote): Result<int, Fault> {
    var power :- TsPow10(-q.expo);
    Success(TruncDiv(amount * q.price, power))
  }

  function TsSize(excess: int, q: Quote, cap: int): Result<int, Fault> {
    var power :- TsPow10(-q.expo);
    if q.price == 0 then Failure(DivisionByZero)
    else
      var size := TruncDiv(excess * power, q.price);
      Success(if size > cap then cap else size)
  }

  function TsNumber(text: string): Result<int, Fault> {
    match StringToBigInt(text)
    case Success(n) => Success(n)
    case Failure(_) => Failure(BadNumber)
  }

  function TsSell(forward: bool, excess: int, from: Quote, to: Quote, cap: int, slip: int): Result<Decision, Fault> {
    var size :- TsSize(excess, from, cap);
    TsTrade(forward, size, from, to, slip)
  }

  /** The cap is parsed only once there is something to rebalance. */
  function TsRebalance(v: View, targetBps: int, parsedCap: Result<int, Fault>): Result<Decision, Fault> {
    var va :- TsUsd(v.holdings.a, v.first);
    var vb :- TsUsd(v.holdings.b, v.second);
    var total := va + vb;
    if total == 0 then Success(Idle)
    else
      var target := TruncDiv(total * targetBps, BPS);
      var cap :- parsedCap;
      if va > target then TsSell(true, va - target, v.first, v.second, cap, v.slip)
      else if vb > total - target then TsSell(false, vb - (total - target), v.second, v.first, cap, v.slip)
      else Success(Idle)
  }

  function TsGrid(v: View, stepBps: int, amountText: string): Result<Pass, Fault> {
    var cur := v.first.price;
    var last :- if v.stored.Some? && v.stored.value != "" then TsNumber(v.stored.value) else Success(cur);
    var step := TruncDiv(last * stepBps, BPS);
    if cur <= last - step then
      var amount :- TsNumber(amountText);
      var d :- TsTrade(false, amount, v.second, v.first, v.slip);
      Success(Pass(d, Some(ShowInt(cur))))
    else if cur >= last + step then
      var amount :- TsNumber(amountText);
      var d :- TsTrade(true, amount, v.first, v.second, v.slip);
      Success(Pass(d, Some(ShowInt(cur))))
    else Success(Pass(Idle, Some(ShowInt(last))))
  }

  /** `runStrategy`. */
  function TsPass(bot: Bot, v: View): Result<Pass, Fault> {
    match bot
    case Dca(amountText) =>
      var amount :- TsNumber(amountText);
      var d :- TsTrade(true, amount, v.first, v.second, v.slip);
      Success(Pass(d, None))
    case Rebalancer(targetBps, cap) =>
      var d :- TsRebalance(v, targetBps, TsNumber(cap));
      Success(Pass(d, None))
    case GridBot(stepBps, amount) => TsGrid(v, stepBps, amount)
  }

  // ---- the common specification ----

  predicate IsAmount(text: string) {
    text != [] && AllDigits(text) && Value(text) < U128
  }

  /** A stored price is one that a keeper wrote. */
  ghost predicate IsStored(stored: Option<string>) {
    stored.Some? ==> exists p :: IsI64(p) && stored.value == ShowInt(p)
  }

  ghost function StoredPrice(stored: Option<string>): (price: Option<int>)
    requires IsStored(stored)
    ensures price.None? <==> stored.None?
    ensures price.Some? ==> IsI64(price.value) && stored == Some(ShowInt(price.value))
  {
    if stored.None? then None
    else
      var p :| IsI64(p) && stored.value == ShowInt(p);
      Some(p)
  }

  function SetupOf(v: View, targetBps: nat, cap: nat): Rebalance.Setup {
    Rebalance.Setup(v.first, v.second, targetBps, cap, v.slip)
  }

  /** Positive 64-bit prices, a slippage of at most 100 % and well-formed settings. */
  ghost predicate Clean(bot: Bot, v: View) {
    && Priced(v.first) && Priced(v.second) && IsI64(v.first.price) && IsI64(v.second.price)
    && v.slip <= BPS && IsStored(v.stored)
    && match bot
       case Dca(amount) => IsAmount(amount)
       case Rebalancer(targetBps, cap) => IsAmount(cap) && Rebalance.Sound(SetupOf(v, targetBps, Value(cap)))
       case GridBot(stepBps, amount) => IsAmount(amount) && stepBps < U64
  }

  ghost function Spec(bot: Bot, v: View): Pass
    requires Clean(bot, v)
  {
    match bot
    case Dca(amount) => Pass(Quoted(true, Value(amount), v.first, v.second, v.slip), None)
    case Rebalancer(targetBps, cap) => Pass(Rebalance.Decide(v.holdings, SetupOf(v, targetBps, Value(cap))), None)
    case GridBot(stepBps, amount) =>
      var state, cur := StoredPrice(v.stored), v.first.price;
      var d := match Grid.Decide(state, cur, stepBps)
               case Buy => Quoted(false, Value(amount), v.second, v.first, v.slip)
               case Sell => Quoted(true, Value(amount), v.first, v.second, v.slip)
               case Hold => Idle;
      Pass(d, Some(ShowInt(Grid.NextReference(state, cur, stepBps))))
  }

  // ---- when the Rust intermediates fit ----

  predicate FairFits(x: nat, from: Quote, to: Quote, slip: nat)
    requires Priced(from) && Priced(to) && slip <= BPS
  {
    var shift := from.expo - to.expo;
    && x * from.price < U128
    && Pow10(if shift >= 0 then shift else -shift) < U128
    && Rescale(x * from.price, shift) < U128
    && FairBeforeSlippage(x, from, to) * (BPS - slip) < U128
  }

  predicate TradeFits(x: nat, from: Quote, to: Quote, slip: nat)
    requires Priced(from) && Priced(to) && slip <= BPS
  {
    x > 0 ==> FairFits(x, from, to, slip)
  }

  predicate SellFits(excess: nat, from: Quote, to: Quote, cap: nat, slip: nat)
    requires Priced(from) && Priced(to) && slip <= BPS && from.expo <= 0
  {
    excess * Pow10(-from.expo) < U128 && TradeFits(Rebalance.SellSize(excess, from, cap), from, to, slip)
  }

  predicate RebalanceFits(h: Rebalance.Holdings, c: Rebalance.Setup)
    requires Rebalance.Sound(c)
  {
    var va, vb, total := Rebalance.Usd(h.a, c.qa), Rebalance.Usd(h.b, c.qb), Rebalance.Total(h, c);
    var target := Rebalance.TargetA(total, c);
    && UsdFits(h, c)
    && (total > 0 ==> total < U128 && total * c.targetBps < U128)
    && (total > 0 && va > target ==>
          SellFits(va - target, c.qa, c.qb, c.cap, c.slip))
    && (total > 0 && va <= target && vb > total - target ==>
          SellFits(vb - (total - target), c.qb, c.qa, c.cap, c.slip))
  }

  predicate UsdFits(h: Rebalance.Holdings, c: Rebalance.Setup)
    requires Rebalance.Sound(c)
  {
    h.a * c.qa.price < U128 && h.b * c.qb.price < U128 && Pow10(-c.qa.expo) < U128 && Pow10(-c.qb.expo) < U128
  }

  ghost predicate Fits(bot: Bot, v: View)
    requires Clean(bot, v)
  {
    match bot
    case Dca(amount) => TradeFits(Value(amount), v.first, v.second, v.slip)
    case Rebalancer(targetBps, cap) =>
      RebalanceFits(v.holdings, SetupOf(v, targetBps, Value(cap)))
    case GridBot(stepBps, amount) =>
      match Grid.Decide(StoredPrice(v.stored), v.first.price, stepBps)
      case Buy => TradeFits(Value(amount), v.second, v.first, v.slip)
      case Sell => TradeFits(Value(amount), v.first, v.second, v.slip)
      case Hold => true
  }

  // ---- refinement ----

  lemma TruncIsFloor(n: nat, d: nat)
    requires d > 0
    ensures TruncDiv(n, d) == n / d && n / d >= 0
  {
    FloorAtLeast(n, d, 0);
  }

  lemma TsFairIsSpec(x: nat, from: Quote, to: Quote, slip: nat)
    requires Priced(from) && Priced(to) && slip <= BPS
    ensures TsFair(x, from, to, slip) == Success(FairOutput(x, from, to, slip))
  {
    var shift := from.expo - to.expo;
    var scaled := Rescale(x * from.price, shift);
    if shift < 0 {
      TruncIsFloor(x * from.price, Pow10(-shift));
    }
    TruncIsFloor(scaled, to.price);
    TruncIsFloor(scaled / to.price * (BPS - slip), BPS);
  }

  lemma TsTradeIsSpec(forward: bool, x: nat, from: Quote, to: Quote, slip: nat)
    requires Priced(from) && Priced(to) && slip <= BPS
    ensures TsTrade(forward, x, from, to, slip) == Success(Quoted(forward, x, from, to, slip))
  {
    TsFairIsSpec(x, from, to, slip);
  }

  lemma RustFairIsSpec(x: nat, from: Quote, to: Quote, slip: nat)
    requires Priced(from) && Priced(to) && IsI64(from.price) && IsI64(to.price) && slip <= BPS
    ensures RustFair(x, from, to, slip)
            == if FairFits(x, from, to, slip) then Success(FairOutput(x, from, to, slip)) else Failure(Overflow)
  {}

  /** With the faults outside the specification. */
  lemma RustFairMeans(x: nat, from: Quote, to: Quote, slip: nat)
    requires IsI64(from.price) && IsI64(to.price)
    ensures var r := RustFair(x, from, to, slip);
            && (Priced(from) && Priced(to) && slip <= BPS ==>
                  r == if FairFits(x, from, to, slip)
                       then Success(FairOutput(x, from, to, slip))
                       else Failure(Overflow))
            && (to.price == 0 ==> r.Failure?)
            && (Priced(to) && slip > BPS ==> r == Failure(Overflow))
  {
    if Priced(from) && Priced(to) && slip <= BPS {
      RustFairIsSpec(x, from, to, slip);
    }
  }

  lemma RustTradeIsSpec(forward: bool, x: nat, from: Quote, to: Quote, slip: nat)
    requires Priced(from) && Priced(to) && IsI64(from.price) && IsI64(to.price) && slip <= BPS
    ensures RustTrade(forward, x, from, to, slip)
            == if TradeFits(x, from, to, slip) then Success(Quoted(forward, x, from, to, slip)) else Failure(Overflow)
  {
    RustFairIsSpec(x, from, to, slip);
  }

  lemma AmountReads(text: string)
    requires IsAmount(text)
    ensures ParseU128(text) == Some(Value(text)) && TsNumber(text) == Success(Value(text))
  {
    DigitsParse(text);
  }

  lemma StoredReads(stored: Option<string>, cur: int)
    requires IsStored(stored) && IsI64(cur)
    ensures var last := Grid.Reference(StoredPrice(stored), cur);
            && IsI64(last)
            && (if stored.Some? then ParseI128(stored.value).GetOr(cur) else cur) == last
            && (if stored.Some? && stored.value != "" then TsNumber(stored.value) else Success(cur)) == Success(last)
  {
    if stored.Some? {
      ShownIntReadsBack(StoredPrice(stored).value);
    }
  }

  lemma TsUsdIsSpec(amount: nat, q: Quote)
    requires Priced(q) && q.expo <= 0
    ensures TsUsd(amount, q) == Success(Rebalance.Usd(amount, q))
  {
    TruncIsFloor(amount * q.price, Pow10(-q.expo));
  }

  lemma TsSizeIsSpec(excess: nat, q: Quote, cap: nat)
    requires Priced(q) && q.expo <= 0
    ensures TsSize(excess, q, cap) == Success(Rebalance.SellSize(excess, q, cap))
  {
    TruncIsFloor(excess * Pow10(-q.expo), q.price);
  }

  lemma TsSellIsSpec(forward: bool, excess: nat, from: Quote, to: Quote, cap: nat, slip: nat)
    requires Priced(from) && Priced(to) && from.expo <= 0 && slip <= BPS
    ensures TsSell(forward, excess, from, to, cap, slip)
            == Success(Quoted(forward, Rebalance.SellSize(excess, from, cap), from, to, slip))
  {
    TsSizeIsSpec(excess, from, cap);
    TsTradeIsSpec(forward, Rebalance.SellSize(excess, from, cap), from, to, slip);
  }

  lemma TsRebalanceIsSpec(v: View, targetBps: nat, cap: nat)
    requires Rebalance.Sound(SetupOf(v, targetBps, cap))
    ensures TsRebalance(v, targetBps, Success(cap)) == Success(Rebalance.Decide(v.holdings, SetupOf(v, targetBps, cap)))
  {
    var c := SetupOf(v, targetBps, cap);
    var va, vb := Rebalance.Usd(v.holdings.a, c.qa), Rebalance.Usd(v.holdings.b, c.qb);
    var total := Rebalance.Total(v.holdings, c);
    var target := Rebalance.TargetA(total, c);
    TsUsdIsSpec(v.holdings.a, c.qa);
    TsUsdIsSpec(v.holdings.b, c.qb);
    TruncIsFloor(total * targetBps, BPS);
    if va > target {
      TsSellIsSpec(true, va - target, c.qa, c.qb, c.cap, c.slip);
    } else if vb > total - target {
      TsSellIsSpec(false, vb - (total - target), c.qb, c.qa, c.cap, c.slip);
    }
  }

  /** The TypeScript keeper computes the specification on every clean input. */
  lemma TsRefinesSpec(bot: Bot, v: View)
    requires Clean(bot, v)
    ensures TsPass(bot, v) == Success(Spec(bot, v))
  {
    match bot
    case Dca(amount) =>
      AmountReads(amount);
      TsTradeIsSpec(true, Value(amount), v.first, v.second, v.slip);
    case Rebalancer(targetBps, cap) =>
      AmountReads(cap);
      TsRebalanceIsSpec(v, targetBps, Value(cap));
    case GridBot(stepBps, amount) =>
      AmountReads(amount);
      StoredReads(v.stored, v.first.price);
      TsTradeIsSpec(false, Value(amount), v.second, v.first, v.slip);
      TsTradeIsSpec(true, Value(amount), v.first, v.second, v.slip);
  }

  lemma RustUsdIsSpec(amount: nat, q: Quote)
    requires Priced(q) && IsI64(q.price) && q.expo <= 0
    ensures RustUsd(amount, q) == if amount * q.price < U128 && Pow10(-q.expo) < U128
                                  then Success(Rebalance.Usd(amount, q)) else Failure(Overflow)
  {}

  lemma RustSizeIsSpec(excess: nat, q: Quote, cap: nat)
    requires Priced(q) && IsI64(q.price) && q.expo <= 0 && Pow10(-q.expo) < U128
    ensures RustSize(excess, q, cap) == if excess * Pow10(-q.expo) < U128
                                        then Success(Rebalance.SellSize(excess, q, cap)) else Failure(Overflow)
  {}

  lemma RustSellIsSpec(forward: bool, excess: nat, from: Quote, to: Quote, cap: nat, slip: nat)
    requires Priced(from) && Priced(to) && IsI64(from.price) && IsI64(to.price) && from.expo <= 0 && slip <= BPS
    requires Pow10(-from.expo) < U128
    ensures RustSell(forward, excess, from, to, cap, slip)
            == if SellFits(excess, from, to, cap, slip)
               then Success(Quoted(forward, Rebalance.SellSize(excess, from, cap), from, to, slip))
               else Failure(Overflow)
  {
    RustSizeIsSpec(excess, from, cap);
    RustTradeIsSpec(forward, Rebalance.SellSize(excess, from, cap), from, to, slip);
  }

  lemma RustRebalanceIsSpec(v: View, targetBps: nat, cap: nat)
    requires var c := SetupOf(v, targetBps, cap); Rebalance.Sound(c) && IsI64(c.qa.price) && IsI64(c.qb.price)
    ensures var c := SetupOf(v, targetBps, cap);
            RustRebalance(v, targetBps, cap)
            == if RebalanceFits(v.holdings, c) then Success(Rebalance.Decide(v.holdings, c)) else Failure(Overflow)
  {
    var c := SetupOf(v, targetBps, cap);
    var va, vb := Rebalance.Usd(v.holdings.a, c.qa), Rebalance.Usd(v.holdings.b, c.qb);
    var total := Rebalance.Total(v.holdings, c);
    var target := Rebalance.TargetA(total, c);
    RustUsdIsSpec(v.holdings.a, c.qa);
    RustUsdIsSpec(v.holdings.b, c.qb);
    if UsdFits(v.holdings, c) {
      if va > target {
        RustSellIsSpec(true, va - target, c.qa, c.qb, c.cap, c.slip);
      } else if vb > total - target {
        RustSellIsSpec(false, vb - (total - target), c.qb, c.qa, c.cap, c.slip);
      }
    }
  }

  lemma GridStaysInRange(last: int, stepBps: nat)
    requires IsI64(last) && stepBps < U64
    ensures IsI128(last * stepBps)
    ensures var step := TruncDiv(last * stepBps, BPS); IsI128(last - step) && IsI128(last + step)
  {
    var n: nat := if last >= 0 then last else -last;
    MulMonotone(n, I64, stepBps);
    MulMonotone(stepBps, U64 - 1, I64);
    assert n * stepBps <= I64 * (U64 - 1);
    assert last < 0 ==> last * stepBps == -(n * stepBps);
  }

  lemma RustGridIsSpec(v: View, stepBps: nat, amount: nat, state: Option<int>)
    requires Priced(v.first) && Priced(v.second) && IsI64(v.first.price) && IsI64(v.second.price)
    requires v.slip <= BPS && stepBps < U64
    requires IsI64(Grid.Reference(state, v.first.price))
    ensures var cur := v.first.price;
            var move, next := Grid.Decide(state, cur, stepBps), Some(ShowInt(Grid.NextReference(state, cur, stepBps)));
            RustGrid(v, Grid.Reference(state, cur), stepBps, amount)
            == match move
               case Buy =>
                 if TradeFits(amount, v.second, v.first, v.slip)
                 then Success(Pass(Quoted(false, amount, v.second, v.first, v.slip), next)) else Failure(Overflow)
               case Sell =>
                 if TradeFits(amount, v.first, v.second, v.slip)
                 then Success(Pass(Quoted(true, amount, v.first, v.second, v.slip), next)) else Failure(Overflow)
               case Hold => Success(Pass(Idle, next))
  {
    GridStaysInRange(Grid.Reference(state, v.first.price), stepBps);
    RustTradeIsSpec(false, amount, v.second, v.first, v.slip);
    RustTradeIsSpec(true, amount, v.first, v.second, v.slip);
  }

  /** The Rust keeper computes the specification exactly when its intermediates fit, and overflows otherwise. */
  lemma RustRefinesSpec(bot: Bot, v: View)
    requires Clean(bot, v)
    ensures RustPass(bot, v) == if Fits(bot, v) then Success(Spec(bot, v)) else Failure(Overflow)
  {
    match bot
    case Dca(amount) =>
      AmountReads(amount);
      RustTradeIsSpec(true, Value(amount), v.first, v.second, v.slip);
    case Rebalancer(targetBps, cap) =>
      AmountReads(cap);
      RustRebalanceIsSpec(v, targetBps, Value(cap));
    case GridBot(stepBps, amount) =>
      AmountReads(amount);
      StoredReads(v.stored, v.first.price);
      RustGridIsSpec(v, stepBps, Value(amount), StoredPrice(v.stored));
  }

  /**
   * On the same balances, positive prices, slippage and stored state, both keepers pick the same
   * direction, input, output and next grid state, unless the Rust arithmetic overflows.
   */
  lemma KeepersAgree(bot: Bot, v: View)
    requires Clean(bot, v)
    ensures RustPass(bot, v) == if Fits(bot, v) then TsPass(bot, v) else Failure(Overflow)
  {
    TsRefinesSpec(bot, v);
    RustRefinesSpec(bot, v);
  }

  /** What a pass stores can be read back by the next pass of either keeper. */
  lemma StateIsReadable(bot: Bot, v: View)
    requires Clean(bot, v)
    ensures IsStored(Spec(bot, v).state)
  {
    if bot.GridBot? {
      StoredReads(v.stored, v.first.price);
      var next := Grid.NextReference(StoredPrice(v.stored), v.first.price, bot.stepBps);
      assert IsI64(next) && Spec(bot, v).state == Some(ShowInt(next));
    }
  }

  /** A trade of a 64-bit balance overflows only when it would yield more than a 64-bit amount. */
  lemma TradeOfBalanceFits(x: nat, from: Quote, to: Quote, slip: nat)
    requires Priced(from) && Priced(to) && IsI64(from.price) && IsI64(to.price) && slip <= BPS
    requires x < U64 && FairBeforeSlippage(x, from, to) < U64
    requires -38 <= from.expo - to.expo <= 38
    ensures FairFits(x, from, to, slip)
  {
    Pow10Fits(Distance(from.expo, to.expo));
    ProductBelow(x, U64, from.price, I64);
    ScaledFits(x * from.price, from.expo - to.expo, to.price);
    ProductBelow(FairBeforeSlippage(x, from, to), U64, BPS - slip, BPS);
  }

  /** Scaling down keeps a u128; scaling up does when the quotient that follows is a 64-bit amount. */
  lemma ScaledFits(value: nat, shift: int, price: nat)
    requires value < U128 && 0 < price < I64
    requires shift >= 0 ==> value * Pow10(shift) / price < U64
    ensures Rescale(value, shift) < U128
  {
    if shift >= 0 {
      QuotientBelow(value * Pow10(shift), price);
    } else {
      MulMonotone(1, Pow10(-shift), U128);
      FloorBelow(value, Pow10(-shift), U128);
    }
  }

  /** Rebalancing 64-bit balances never overflows when each is worth a 64-bit amount of the other. */
  lemma RebalanceOfBalancesFits(h: Rebalance.Holdings, c: Rebalance.Setup)
    requires Rebalance.Sound(c) && IsI64(c.qa.price) && IsI64(c.qb.price)
    requires h.a < U64 && h.b < U64 && -38 <= c.qa.expo <= -5 && -38 <= c.qb.expo <= -5
    requires FairBeforeSlippage(h.a, c.qa, c.qb) < U64 && FairBeforeSlippage(h.b, c.qb, c.qa) < U64
    ensures RebalanceFits(h, c)
  {
    var va, vb, total := Rebalance.Usd(h.a, c.qa), Rebalance.Usd(h.b, c.qb), Rebalance.Total(h, c);
    var target := Rebalance.TargetA(total, c);
    UsdIsSmall(h.a, c.qa);
    UsdIsSmall(h.b, c.qb);
    MulMonotone(c.targetBps, BPS, total);
    assert total * c.targetBps < U128;
    if va > target {
      SaleFits(h.a, va - target, c.qa, c.qb, c.cap, c.slip);
    } else if vb > total - target {
      SaleFits(h.b, vb - (total - target), c.qb, c.qa, c.cap, c.slip);
    }
  }

  lemma UsdIsSmall(amount: nat, q: Quote)
    requires Priced(q) && IsI64(q.price) && amount < U64 && -38 <= q.expo <= -5
    ensures amount * q.price < U128 / 2 && Pow10(-q.expo) < U128
    ensures 100_000 * Rebalance.Usd(amount, q) <= Rebalance.Usd(amount, q) * Pow10(-q.expo) <= amount * q.price
  {
    Pow10Of38();
    Pow10Monotone(-q.expo, 38);
    assert Pow10(4) == 10_000 && Pow10(5) == 100_000;
    Pow10Monotone(5, -q.expo);
    ProductBelow(amount, U64, q.price, I64);
    FloorBounds(amount * q.price, Pow10(-q.expo));
    MulMonotone(100_000, Pow10(-q.expo), Rebalance.Usd(amount, q));
  }

  lemma SaleFits(balance: nat, excess: nat, from: Quote, to: Quote, cap: nat, slip: nat)
    requires Priced(from) && Priced(to) && IsI64(from.price) && IsI64(to.price) && slip <= BPS
    requires balance < U64 && -38 <= from.expo <= -5 && -38 <= to.expo <= -5
    requires 0 < excess <= Rebalance.Usd(balance, from)
    requires FairBeforeSlippage(balance, from, to) < U64
    ensures SellFits(excess, from, to, cap, slip)
  {
    UsdIsSmall(balance, from);
    MulMonotone(excess, Rebalance.Usd(balance, from), Pow10(-from.expo));
    Rebalance.SaleRespectsKeep(balance, from, Rebalance.Usd(balance, from) - excess, cap);
    var size := Rebalance.SellSize(excess, from, cap);
    FairMonotone(size, balance, from, to);
    TradeOfBalanceFits(size, from, to, slip);
  }

  lemma FairMonotone(x: nat, y: nat, from: Quote, to: Quote)
    requires Priced(from) && Priced(to) && x <= y
    ensures FairBeforeSlippage(x, from, to) <= FairBeforeSlippage(y, from, to)
  {
    FairOutputMonotone(x, y, from, to, 0);
    assert FairOutput(x, from, to, 0) == FairBeforeSlippage(x, from, to) by {
      FloorUnique(FairBeforeSlippage(x, from, to) * BPS, BPS, FairBeforeSlippage(x, from, to));
    }
    assert FairOutput(y, from, to, 0) == FairBeforeSlippage(y, from, to) by {
      FloorUnique(FairBeforeSlippage(y, from, to) * BPS, BPS, FairBeforeSlippage(y, from, to));
    }
  }

  lemma ProductBelow(x: nat, xs: nat, y: nat, ys: nat)
    requires x < xs && y <= ys && ys > 0
    ensures x * y < xs * ys
  {
    MulMonotone(y, ys, x);
    MulStrict(x, xs, ys);
  }

  lemma QuotientBelow(n: nat, d: nat)
    requires 0 < d <= I64 && n / d < U64
    ensures n < U128
  {
    FloorBounds(n, d);
    MulMonotone(n / d + 1, U64, d);
    MulMonotone(d, I64, U64);
  }

  // ---- outside the clean inputs: negative prices ----

  /** What Rust makes of one unit sold at a negative price: the price is reinterpreted as U128 + price. */
  function WrappedFair(from: Quote, to: Quote): nat
    requires from.price < 0 < to.price && IsI64(from.price) && to.expo >= from.expo
  {
    Quotient(AsU128(from.price), to.price * Pow10(to.expo - from.expo))
  }

  /** Whether that unit gets through the u128 arithmetic. */
  predicate WrappedFits(from: Quote, to: Quote, slip: nat)
    requires from.price < 0 < to.price && IsI64(from.price) && slip <= BPS
  {
    from.expo <= to.expo <= from.expo + 38 && WrappedFair(from, to) * (BPS - slip) < U128
  }

  /** Rust overflows on two units or more, and trades the reinterpreted price of one unit whenever that fits. */
  function WrappedTrade(forward: bool, x: nat, from: Quote, to: Quote, slip: nat): Result<Decision, Fault>
    requires from.price < 0 < to.price && IsI64(from.price) && slip <= BPS
  {
    if x == 0 then Success(Idle)
    else if x >= 2 || !WrappedFits(from, to, slip) then Failure(Overflow)
    else
      var output := WrappedFair(from, to) * (BPS - slip) / BPS;
      Success(if output == 0 then Idle else Trade(forward, 1, output))
  }

  /** At a negative source price the keepers part: TypeScript stays idle, Rust overflows or trades a wrapped price. */
  lemma NegativePriceDiverges(forward: bool, x: nat, from: Quote, to: Quote, slip: nat)
    requires from.price < 0 < to.price && IsI64(from.price) && IsI64(to.price) && slip <= BPS
    ensures TsTrade(forward, x, from, to, slip) == Success(Idle)
    ensures RustTrade(forward, x, from, to, slip) == WrappedTrade(forward, x, from, to, slip)
  {
    NegativeIsIdle(forward, x, from, to, slip);
    WrappedIsTraded(forward, x, from, to, slip);
  }

  /**
   * So they still agree exactly on nothing, or on a unit whose reinterpreted price fits and rounds to
   * nothing.
   */
  lemma NegativePriceAgreesIff(forward: bool, x: nat, from: Quote, to: Quote, slip: nat)
    requires from.price < 0 < to.price && IsI64(from.price) && IsI64(to.price) && slip <= BPS
    ensures RustTrade(forward, x, from, to, slip) == TsTrade(forward, x, from, to, slip)
            <==> x == 0 || (x == 1 && WrappedFits(from, to, slip) && WrappedFair(from, to) * (BPS - slip) < BPS)
  {
    NegativePriceDiverges(forward, x, from, to, slip);
    if WrappedFits(from, to, slip) {
      FloorBounds(WrappedFair(from, to) * (BPS - slip), BPS);
    }
  }

  lemma WrappedIsTraded(forward: bool, x: nat, from: Quote, to: Quote, slip: nat)
    requires from.price < 0 < to.price && IsI64(from.price) && IsI64(to.price) && slip <= BPS
    ensures RustTrade(forward, x, from, to, slip) == WrappedTrade(forward, x, from, to, slip)
  {
    if x >= 2 {
      WrappedMany(x, from, to, slip);
    } else {
      WrappedUnit(from, to, slip);
    }
  }

  lemma NegativeIsIdle(forward: bool, x: nat, from: Quote, to: Quote, slip: nat)
    requires from.price < 0 < to.price && slip <= BPS
    ensures TsTrade(forward, x, from, to, slip) == Success(Idle)
  {
    var shift, value := from.expo - to.expo, x * from.price;
    assert value <= 0 by {
      MulMonotone(from.price, 0, x);
    }
    var scaled := if shift >= 0 then value * Pow10(shift) else TruncDiv(value, Pow10(-shift));
    if shift >= 0 {
      MulMonotone(value, 0, Pow10(shift));
    } else {
      TruncOfNonPositive(value, Pow10(-shift));
    }
    TruncOfNonPositive(scaled, to.price);
    MulMonotone(TruncDiv(scaled, to.price), 0, BPS - slip);
    TruncOfNonPositive(TruncDiv(scaled, to.price) * (BPS - slip), BPS);
  }

  lemma TruncOfNonPositive(n: int, d: int)
    requires n <= 0 < d
    ensures TruncDiv(n, d) <= 0
  {
    FloorAtLeast(-n, d, 0);
  }

  lemma WrappedMany(x: nat, from: Quote, to: Quote, slip: nat)
    requires x >= 2 && from.price < 0 && IsI64(from.price) && IsI64(to.price)
    ensures RustFair(x, from, to, slip) == Failure(Overflow)
  {
    MulMonotone(2, x, AsU128(from.price));
    assert Checked(x * AsU128(from.price)) == Failure(Overflow);
  }

  lemma WrappedUnit(from: Quote, to: Quote, slip: nat)
    requires from.price < 0 < to.price && IsI64(from.price) && IsI64(to.price) && slip <= BPS
    ensures RustFair(1, from, to, slip)
            == if WrappedFits(from, to, slip) then Success(WrappedFair(from, to) * (BPS - slip) / BPS)
               else Failure(Overflow)
  {
    if from.expo > to.expo {
      WrappedUnitScaledUp(from, to, slip);
    } else {
      Pow10Fits(to.expo - from.expo);
      if to.expo - from.expo <= 38 {
        WrappedUnitScaledDown(from, to, slip);
      }
    }
  }

  lemma WrappedUnitScaledUp(from: Quote, to: Quote, slip: nat)
    requires from.price < 0 < to.price && IsI64(from.price) && IsI64(to.price) && from.expo > to.expo
    ensures RustFair(1, from, to, slip) == Failure(Overflow)
  {
    var value, power := AsU128(from.price), Pow10(from.expo - to.expo);
    assert value >= U128 / 2 && power >= 10;
    MulMonotone(10, power, value);
    assert value * power >= U128;
  }

  lemma WrappedUnitScaledDown(from: Quote, to: Quote, slip: nat)
    requires from.price < 0 < to.price && IsI64(from.price) && IsI64(to.price) && slip <= BPS
    requires from.expo <= to.expo && Pow10(to.expo - from.expo) < U128
    ensures var fair := WrappedFair(from, to);
            RustFair(1, from, to, slip)
            == if fair * (BPS - slip) < U128 then Success(fair * (BPS - slip) / BPS) else Failure(Overflow)
  {
    var value, power := AsU128(from.price), Pow10(to.expo - from.expo);
    FloorOfFloor(value, power, to.price);
    assert power * to.price == to.price * power;
    if from.expo == to.expo {
      assert power == 1 && value / power == value;
    }
  }

  /** Whether a trade gets through the u128 arithmetic before its output price is divided in. */
  predicate ScaleFits(x: nat, from: Quote, to: Quote)
    requires Priced(from)
  {
    var shift := from.expo - to.expo;
    && x * from.price < U128
    && Pow10(if shift >= 0 then shift else -shift) < U128
    && Rescale(x * from.price, shift) < U128
  }

  /**
   * Buying at a negative price, TypeScript stays idle too. Rust divides by the reinterpreted price, so
   * what does not overflow buys one unit when it reaches that price without slippage, and else nothing.
   */
  lemma NegativeDestinationDiverges(forward: bool, x: nat, from: Quote, to: Quote, slip: nat)
    requires to.price < 0 < from.price && IsI64(from.price) && IsI64(to.price) && slip <= BPS && x > 0
    ensures TsTrade(forward, x, from, to, slip) == Success(Idle)
    ensures RustTrade(forward, x, from, to, slip)
            == if !ScaleFits(x, from, to) then Failure(Overflow)
               else if slip == 0 && Rescale(x * from.price, from.expo - to.expo) >= U128 + to.price
               then Success(Trade(forward, x, 1))
               else Success(Idle)
  {
    NegativeDestinationIsIdle(forward, x, from, to, slip);
    NegativeDestinationWraps(x, from, to, slip);
  }

  lemma NegativeDestinationIsIdle(forward: bool, x: nat, from: Quote, to: Quote, slip: nat)
    requires to.price < 0 < from.price && slip <= BPS && x > 0
    ensures TsTrade(forward, x, from, to, slip) == Success(Idle)
  {
    var shift := from.expo - to.expo;
    var scaled := Rescale(x * from.price, shift);
    if shift < 0 {
      TruncIsFloor(x * from.price, Pow10(-shift));
    }
    var fair := TruncDiv(scaled, to.price);
    assert fair <= 0;
    MulMonotone(fair, 0, BPS - slip);
    TruncOfNonPositive(fair * (BPS - slip), BPS);
  }

  lemma NegativeDestinationWraps(x: nat, from: Quote, to: Quote, slip: nat)
    requires to.price < 0 < from.price && IsI64(from.price) && IsI64(to.price) && slip <= BPS
    ensures RustFair(x, from, to, slip)
            == if !ScaleFits(x, from, to) then Failure(Overflow)
               else if slip == 0 && Rescale(x * from.price, from.expo - to.expo) >= U128 + to.price then Success(1)
               else Success(0)
  {
    RustScaleIsSpec(x, from, to);
    if ScaleFits(x, from, to) {
      WrappedDivisor(Rescale(x * from.price, from.expo - to.expo), to.price, slip);
    }
  }

  lemma RustScaleIsSpec(x: nat, from: Quote, to: Quote)
    requires Priced(from) && IsI64(from.price)
    ensures RustScale(x, from, to.expo)
            == if ScaleFits(x, from, to) then Success(Rescale(x * from.price, from.expo - to.expo))
               else Failure(Overflow)
  {}

  lemma WrappedDivisor(scaled: nat, price: int, slip: nat)
    requires price < 0 && IsI64(price) && slip <= BPS && scaled < U128
    ensures RustFinish(scaled, price, slip) == Success(if slip == 0 && scaled >= U128 + price then 1 else 0)
  {
    var d := U128 + price;
    FloorUnique(scaled, d, if scaled >= d then 1 else 0);
    assert Quotient(scaled, AsU128(price)) == if scaled >= d then 1 else 0;
  }

  /** The quote with its price's sign dropped. */
  function Unsigned(q: Quote): Quote {
    Quote(Distance(q.price, 0), q.expo)
  }

  /**
   * With both prices negative, TypeScript's signs cancel and it trades as at the positive prices. Rust
   * overflows on two units or more; one unit buys one unit when the exponents are equal, the price sold is
   * no lower and no slippage is charged, and nothing otherwise.
   */
  lemma NegativePricesDiverge(forward: bool, x: nat, from: Quote, to: Quote, slip: nat)
    requires from.price < 0 && to.price < 0 && IsI64(from.price) && IsI64(to.price) && slip <= BPS && x > 0
    ensures TsTrade(forward, x, from, to, slip) == Success(Quoted(forward, x, Unsigned(from), Unsigned(to), slip))
    ensures RustTrade(forward, x, from, to, slip)
            == if x >= 2 || !(from.expo <= to.expo <= from.expo + 38) then Failure(Overflow)
               else if from.expo == to.expo && from.price >= to.price && slip == 0 then Success(Trade(forward, 1, 1))
               else Success(Idle)
  {
    SignsCancel(forward, x, from, to, slip);
    if x >= 2 {
      WrappedMany(x, from, to, slip);
    } else {
      BothWrapped(from, to, slip);
    }
  }

  lemma SignsCancel(forward: bool, x: nat, from: Quote, to: Quote, slip: nat)
    requires from.price < 0 && to.price < 0 && slip <= BPS
    ensures TsTrade(forward, x, from, to, slip) == Success(Quoted(forward, x, Unsigned(from), Unsigned(to), slip))
  {
    ScaleFlips(x, from, to.expo);
    TruncSigns(TsScale(x, Unsigned(from), to.expo), -to.price);
    assert TsFair(x, from, to, slip) == TsFair(x, Unsigned(from), Unsigned(to), slip);
    TsTradeIsSpec(forward, x, Unsigned(from), Unsigned(to), slip);
  }

  lemma ScaleFlips(x: nat, from: Quote, expo: int)
    requires from.price < 0
    ensures 0 <= TsScale(x, Unsigned(from), expo) == -TsScale(x, from, expo)
  {
    var shift, value := from.expo - expo, x * -from.price;
    assert x * from.price == -value;
    if shift >= 0 {
      MulSub(0, value, Pow10(shift));
      MulMonotone(0, value, Pow10(shift));
    } else {
      TruncSigns(value, Pow10(-shift));
    }
  }

  lemma TruncSigns(n: int, d: int)
    requires n >= 0 && d > 0
    ensures 0 <= TruncDiv(n, d) == -TruncDiv(-n, d)
    ensures TruncDiv(-n, -d) == TruncDiv(n, d)
  {
    FloorAtLeast(n, d, 0);
    assert n / -d == -(n / d);
  }

  lemma BothWrapped(from: Quote, to: Quote, slip: nat)
    requires from.price < 0 && to.price < 0 && IsI64(from.price) && IsI64(to.price) && slip <= BPS
    ensures RustFair(1, from, to, slip)
            == if !(from.expo <= to.expo <= from.expo + 38) then Failure(Overflow)
               else if from.expo == to.expo && from.price >= to.price && slip == 0 then Success(1)
               else Success(0)
  {
    var value := AsU128(from.price);
    if from.expo > to.expo {
      MulMonotone(10, Pow10(from.expo - to.expo), value);
      assert RustScale(1, from, to.expo) == Failure(Overflow);
    } else {
      Pow10Fits(to.expo - from.expo);
      if to.expo - from.expo <= 38 {
        WrappedScale(from, to.expo);
        WrappedDivisor(RustScale(1, from, to.expo).value, to.price, slip);
      }
    }
  }

  lemma WrappedScale(from: Quote, expo: int)
    requires from.price < 0 && IsI64(from.price) && from.expo <= expo && Pow10(expo - from.expo) < U128
    ensures var scaled := RustScale(1, from, expo);
            && scaled.Success?
            && (from.expo == expo ==> scaled.value == U128 + from.price)
            && (from.expo < expo ==> scaled.value < U128 / 2)
  {
    var value, power := AsU128(from.price), Pow10(expo - from.expo);
    if from.expo == expo {
      assert Quotient(value, 1) == value;
    } else {
      FloorBelow(value, power, U128 / 2) by {
        MulMonotone(10, power, U128 / 2);
      }
    }
  }

  /** Selling at a price of zero yields nothing; Rust overflows only in the power of ten. */
  lemma ZeroPriceIsIdle(forward: bool, x: nat, from: Quote, to: Quote, slip: nat)
    requires from.price == 0 && to.price != 0 && IsI64(to.price) && slip <= BPS && x > 0
    ensures TsTrade(forward, x, from, to, slip) == Success(Idle)
    ensures RustTrade(forward, x, from, to, slip)
            == if -38 <= from.expo - to.expo <= 38 then Success(Idle) else Failure(Overflow)
  {
    ZeroIsScaled(x, from, to.expo);
    if -38 <= from.expo - to.expo <= 38 {
      assert RustFinish(0, to.price, slip) == Success(0);
    }
  }

  lemma ZeroIsScaled(x: nat, from: Quote, expo: int)
    requires from.price == 0
    ensures TsScale(x, from, expo) == 0
    ensures RustScale(x, from, expo) == if -38 <= from.expo - expo <= 38 then Success(0) else Failure(Overflow)
  {
    Pow10Fits(Distance(from.expo, expo));
    assert x * from.price == 0;
  }

  /** Such a trade happens: one unit at price -1 is sold for the largest amount that u128 leaves. */
  lemma NegativePriceTrades(holdings: Rebalance.Holdings)
    ensures var v := View(Quote(-1, -8), Quote(100_000, -8), holdings, 0, None);
            && RustPass(Dca("1"), v) == Success(Pass(Trade(true, 1, (U128 - 1) / 100_000), None))
            && TsPass(Dca("1"), v) == Success(Pass(Idle, None))
  {
    var from, to := Quote(-1, -8), Quote(100_000, -8);
    assert Value("1") == 1 by {
      assert Value("1"[..0]) == 0;
    }
    AmountReads("1");
    NegativePriceDiverges(true, 1, from, to, 0);
    assert WrappedFair(from, to) == (U128 - 1) / 100_000;
  }
}
