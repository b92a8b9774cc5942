/** What a strategy wants done in one pass: nothing, or one swap of the pair it manages. */
module Trading {
  import opened Pricing

  /** A forward trade sells the pair's first asset for its second, a backward one the reverse. */
  datatype Decision = Idle | Trade(forward: bool, input: nat, output: nat)

  /** A trade is priced, and dropped when either side rounds to nothing. */
  function Quoted(forward: bool, input: nat, from: Quote, to: Quote, slip: nat): (d: Decision)
    requires from.price >= 0 && Priced(to) && slip <= BPS
    ensures d.Trade? ==> d.input > 0 && d.output > 0
  {
    if input == 0 then Idle
    else
      var output := FairOutput(input, from, to, slip);
      if output == 0 then Idle else Trade(forward, input, output)
  }
}

/** The two-asset rebalancer: sell the overweight leg back to its target value, up to a cap. */
module Rebalance {
  import opened Arithmetic
  import opened Pricing
  import opened Trading

  datatype Setup = Setup(qa: Quote, qb: Quote, targetBps: nat, cap: nat, slip: nat)

  datatype Holdings = Holdings(a: nat, b: nat)

  predicate Sound(c: Setup) {
    && Priced(c.qa) && Priced(c.qb) && c.qa.expo <= 0 && c.qb.expo <= 0
    && c.targetBps <= BPS && c.slip <= BPS
  }

  /** Floored dollar value of a balance. */
  function Usd(amount: nat, q: Quote): nat
    requires q.price >= 0 && q.expo <= 0
  {
    FloorAtLeast(amount * q.price, Pow10(-q.expo), 0);
    amount * q.price / Pow10(-q.expo)
  }

  function Total(h: Holdings, c: Setup): nat
    requires Sound(c)
  {
    Usd(h.a, c.qa) + Usd(h.b, c.qb)
  }

  function TargetA(total: nat, c: Setup): (t: nat)
    requires Sound(c)
    ensures t <= total
  {
    MulMonotone(c.targetBps, BPS, total);
    FloorMonotone(total * c.targetBps, total * BPS, BPS);
    total * c.targetBps / BPS
  }

  /** Dollar value the sold leg is meant to keep. */
  function Keep(forward: bool, total: nat, c: Setup): nat
    requires Sound(c)
  {
    if forward then TargetA(total, c) else total - TargetA(total, c)
  }

  /** Units to sell for a dollar excess, capped. */
  function SellSize(excess: nat, q: Quote, cap: nat): nat
    requires Priced(q) && q.expo <= 0
  {
    FloorAtLeast(excess * Pow10(-q.expo), q.price, 0);
    var size := excess * Pow10(-q.expo) / q.price;
    if size > cap then cap else size
  }

  function Decide(h: Holdings, c: Setup): Decision
    requires Sound(c)
  {
    var va, vb, total := Usd(h.a, c.qa), Usd(h.b, c.qb), Total(h, c);
    var target := TargetA(total, c);
    if total == 0 then Idle
    else if va > target then
      Quoted(true, SellSize(va - target, c.qa, c.cap), c.qa, c.qb, c.slip)
    else if vb > total - target then
      Quoted(false, SellSize(vb - (total - target), c.qb, c.cap), c.qb, c.qa, c.slip)
    else Idle
  }

  function Sold(forward: bool, h: Holdings): nat {
    if forward then h.a else h.b
  }

  function SoldQuote(forward: bool, c: Setup): Quote {
    if forward then c.qa else c.qb
  }

  /** The swap moves exactly the input out of the vault and the output into it. */
  function Settle(h: Holdings, d: Decision): Holdings
    requires d.Trade? ==> d.input <= Sold(d.forward, h)
  {
    match d
    case Idle => h
    case Trade(true, input, output) => Holdings(h.a - input, h.b + output)
    case Trade(false, input, output) => Holdings(h.a + output, h.b - input)
  }

  // ---- safety of one trade ----

  /** Selling back a dollar excess never oversells and never takes the leg below what it keeps. */
  lemma SaleRespectsKeep(balance: nat, q: Quote, keep: nat, cap: nat)
    requires Priced(q) && q.expo <= 0 && keep < Usd(balance, q)
    ensures var size := SellSize(Usd(balance, q) - keep, q, cap);
            size <= cap && size <= balance && Usd(balance - size, q) >= keep
  {
    var k, v := Pow10(-q.expo), Usd(balance, q);
    var full := (v - keep) * k / q.price;
    var size := SellSize(v - keep, q, cap);
    FloorBounds((v - keep) * k, q.price);
    FloorBounds(balance * q.price, k);
    MulMonotone(size, full, q.price);
    MulMonotone(v - keep, v, k);
    MulCancel(size, balance, q.price);
    MulSub(v, keep, k);
    MulSub(balance, size, q.price);
    FloorAtLeast((balance - size) * q.price, k, keep);
  }

  /** Exact value of the holdings, cross-multiplied to a common integer unit. */
  function Worth(h: Holdings, c: Setup): nat
    requires Sound(c)
  {
    h.a * (c.qa.price * Pow10(-c.qb.expo)) + h.b * (c.qb.price * Pow10(-c.qa.expo))
  }

  lemma DecisionIsFunded(h: Holdings, c: Setup)
    requires Sound(c)
    ensures var d := Decide(h, c);
            d.Trade? ==>
              var keep := Keep(d.forward, Total(h, c), c);
              && d.input <= Sold(d.forward, h)
              && d.input <= c.cap
              && keep < Usd(Sold(d.forward, h), SoldQuote(d.forward, c))
              && Usd(Sold(d.forward, h) - d.input, SoldQuote(d.forward, c)) >= keep
              && d.input > 0
              && d.output == FairOutput(d.input, SoldQuote(d.forward, c), SoldQuote(!d.forward, c), c.slip)
  {
    var d := Decide(h, c);
    if d.Trade? {
      SaleRespectsKeep(Sold(d.forward, h), SoldQuote(d.forward, c), Keep(d.forward, Total(h, c), c), c.cap);
    }
  }

  /** A trade never raises the exact value, and lowers it strictly once slippage is charged. */
  lemma TradeLosesWorth(h: Holdings, c: Setup)
    requires Sound(c)
    ensures var d := Decide(h, c);
            d.Trade? ==>
              && d.input <= Sold(d.forward, h)
              && Worth(Settle(h, d), c) <= Worth(h, c)
              && (c.slip >= 1 ==> Worth(Settle(h, d), c) < Worth(h, c))
  {
    DecisionIsFunded(h, c);
    var d := Decide(h, c);
    if d.Idle? {
      return;
    }
    var from, to, scale := SoldQuote(d.forward, c), SoldQuote(!d.forward, c), -c.qa.expo - c.qb.expo;
    ConversionLosesValue(d.input, from, to, c.slip, scale);
    MulStrict(0, Pow10(from.expo + scale), from.price);
    MulStrict(0, d.input, Weight(from, scale));
    Shortfall(d.input * Weight(from, scale), d.output * Weight(to, scale), c.slip);
    WorthAfter(h, c, d);
  }

  lemma Shortfall(taken: nat, given: nat, slip: nat)
    requires taken > 0 && slip <= BPS && given * BPS <= taken * (BPS - slip)
    ensures given <= taken && (slip >= 1 ==> given < taken)
  {
    MulMonotone(BPS - slip, BPS, taken);
    MulCancel(given, taken, BPS);
    if slip >= 1 {
      MulStrict(BPS - slip, BPS, taken);
    }
  }

  lemma WorthAfter(h: Holdings, c: Setup, d: Decision)
    requires Sound(c) && d.Trade? && d.input <= Sold(d.forward, h)
    ensures var scale := -c.qa.expo - c.qb.expo;
            Worth(Settle(h, d), c)
            == Worth(h, c) - d.input * Weight(SoldQuote(d.forward, c), scale)
               + d.output * Weight(SoldQuote(!d.forward, c), scale)
  {
    var wa, wb := c.qa.price * Pow10(-c.qb.expo), c.qb.price * Pow10(-c.qa.expo);
    if d.forward {
      assert (h.a - d.input) * wa == h.a * wa - d.input * wa;
      assert (h.b + d.output) * wb == h.b * wb + d.output * wb;
    } else {
      assert (h.b - d.input) * wb == h.b * wb - d.input * wb;
      assert (h.a + d.output) * wa == h.a * wa + d.output * wa;
    }
  }

  /** The floored total is the exact worth to within two units. */
  lemma TotalTracksWorth(h: Holdings, c: Setup)
    requires Sound(c)
    ensures var unit := Pow10(-c.qa.expo) * Pow10(-c.qb.expo);
            unit > 0 && Total(h, c) * unit <= Worth(h, c) < (Total(h, c) + 2) * unit
  {
    var ka, kb := Pow10(-c.qa.expo), Pow10(-c.qb.expo);
    ScaledFloor(h.a, c.qa.price, ka, kb);
    ScaledFloor(h.b, c.qb.price, kb, ka);
    AddScaled(Usd(h.a, c.qa), Usd(h.b, c.qb), ka, kb);
    AddScaled(Usd(h.a, c.qa) + 1, Usd(h.b, c.qb) + 1, ka, kb);
  }

  lemma AddScaled(va: nat, vb: nat, ka: nat, kb: nat)
    requires ka > 0 && kb > 0
    ensures ka * kb > 0
    ensures (va + vb) * (ka * kb) == va * (ka * kb) + vb * (kb * ka)
  {}

  lemma ScaledFloor(amount: nat, price: nat, own: nat, other: nat)
    requires own > 0 && other > 0
    ensures amount * price / own * (own * other) <= amount * (price * other)
            < (amount * price / own + 1) * (own * other)
  {
    var v := amount * price / own;
    FloorBounds(amount * price, own);
    MulMonotone(v * own, amount * price, other);
    MulStrict(amount * price, (v + 1) * own, other);
    MulAssoc(v, own, other);
    MulAssoc(v + 1, own, other);
    MulAssoc(amount, price, other);
  }

  /** Both legs' targets are monotone in the total and move by at most one unit per unit. */
  lemma KeepIsLipschitz(forward: bool, before: nat, now: nat, c: Setup)
    requires Sound(c) && now <= before + 1
    ensures Keep(forward, now, c) <= Keep(forward, before, c) + 1
  {
    var t := c.targetBps;
    FloorBounds(before * t, BPS);
    FloorBounds(now * t, BPS);
    MulMonotone(now, before + 1, t);
    MulMonotone(now, before + 1, BPS - t);
    assert now * (BPS - t) == now * BPS - now * t;
    assert (before + 1) * (BPS - t) == before * BPS + BPS - before * t - t;
    assert (before + 1) * t == before * t + t;
  }

  /**
   * Safety of every executed trade: the size is funded and capped, the sold leg's floored value
   * stays at or above the target of this tick, and is at most one unit below the target that the
   * next tick recomputes at the same prices.
   */
  lemma RebalanceIsSafe(h: Holdings, c: Setup)
    requires Sound(c)
    ensures var d := Decide(h, c);
            d.Trade? ==>
              && d.input <= Sold(d.forward, h)
              && d.input <= c.cap
              && (var after := Settle(h, d);
                  var left := Usd(Sold(d.forward, after), SoldQuote(d.forward, c));
                  && left >= Keep(d.forward, Total(h, c), c)
                  && left + 1 >= Keep(d.forward, Total(after, c), c))
  {
    DecisionIsFunded(h, c);
    TradeLosesWorth(h, c);
    var d := Decide(h, c);
    if d.Idle? {
      return;
    }
    var after := Settle(h, d);
    TotalTracksWorth(h, c);
    TotalTracksWorth(after, c);
    var unit := Pow10(-c.qa.expo) * Pow10(-c.qb.expo);
    MulCancelStrict(Total(after, c), Total(h, c) + 2, unit);
    KeepIsLipschitz(d.forward, Total(h, c), Total(after, c), c);
  }

  /**
   * A sale that the cap does not cut short goes all the way: one base unit less and the sold leg
   * would be worth no more than its target.
   */
  lemma UncappedSaleReachesTarget(h: Holdings, c: Setup)
    requires Sound(c)
    ensures var d := Decide(h, c);
            d.Trade? && d.input < c.cap ==>
              var left := Sold(d.forward, h) - d.input;
              left > 0 ==> Usd(left - 1, SoldQuote(d.forward, c)) <= Keep(d.forward, Total(h, c), c)
  {
    DecisionIsFunded(h, c);
    var d := Decide(h, c);
    if d.Idle? {
      return;
    }
    SaleIsMaximal(Sold(d.forward, h), SoldQuote(d.forward, c), Keep(d.forward, Total(h, c), c), c.cap);
  }

  lemma SaleIsMaximal(balance: nat, q: Quote, keep: nat, cap: nat)
    requires Priced(q) && q.expo <= 0 && keep < Usd(balance, q)
    ensures var size := SellSize(Usd(balance, q) - keep, q, cap);
            size < cap && size < balance ==> Usd(balance - size - 1, q) <= keep
  {
    var k, v := Pow10(-q.expo), Usd(balance, q);
    var size := SellSize(v - keep, q, cap);
    if size < cap && size < balance {
      FloorBounds((v - keep) * k, q.price);
      FloorBounds(balance * q.price, k);
      MulSub(balance, size + 1, q.price);
      MulSub(v, keep, k);
      MulAdd(v, 1, k);
      MulAdd(keep, 1, k);
      FloorBelow((balance - size - 1) * q.price, k, keep + 1);
    }
  }

  /** A tick stays idle exactly when both legs sit on their targets, or the sale owed rounds to nothing. */
  lemma IdleIff(h: Holdings, c: Setup)
    requires Sound(c)
    ensures var va, total := Usd(h.a, c.qa), Total(h, c);
            var forward := va > TargetA(total, c);
            var from, to := SoldQuote(forward, c), SoldQuote(!forward, c);
            Decide(h, c).Idle? <==>
            || va == TargetA(total, c)
            || (var size := SellSize(Distance(va, TargetA(total, c)), from, c.cap);
                size == 0 || FairOutput(size, from, to, c.slip) == 0)
  {}

  // ---- runs at fixed prices ----

  function Tick(h: Holdings, c: Setup): Holdings
    requires Sound(c)
  {
    DecisionIsFunded(h, c);
    Settle(h, Decide(h, c))
  }

  function Run(h: Holdings, c: Setup, n: nat): Holdings
    requires Sound(c)
    decreases n
  {
    if n == 0 then h else Run(Tick(h, c), c, n - 1)
  }

  function Trades(h: Holdings, c: Setup, n: nat): nat
    requires Sound(c)
    decreases n
  {
    if n == 0 then 0 else (if Decide(h, c).Trade? then 1 else 0) + Trades(Tick(h, c), c, n - 1)
  }

  /** Every executed trade spends at least one unit of worth, so a run holds at most Worth(h) trades. */
  lemma {:induction false} TradesSpendWorth(h: Holdings, c: Setup, n: nat)
    requires Sound(c) && c.slip >= 1
    ensures Trades(h, c, n) + Worth(Run(h, c, n), c) <= Worth(h, c)
    decreases n
  {
    if n == 0 {
    } else {
      TradesSpendWorth(Tick(h, c), c, n - 1);
      if Decide(h, c).Trade? {
        TradeLosesWorth(h, c);
      }
    }
  }

  lemma {:induction false} IdleIsStill(h: Holdings, c: Setup, n: nat)
    requires Sound(c) && Decide(h, c).Idle?
    ensures Run(h, c, n) == h && Trades(h, c, n) == 0
    decreases n
  {
    if n == 0 {
    } else {
      IdleIsStill(h, c, n - 1);
    }
  }

  lemma {:induction false} RunAppend(h: Holdings, c: Setup, m: nat, n: nat)
    requires Sound(c)
    ensures Run(h, c, m + n) == Run(Run(h, c, m), c, n)
    decreases m
  {
    if m == 0 {
    } else {
      RunAppend(Tick(h, c), c, m - 1, n);
    }
  }

  // ---- trades that cost nothing: without slippage a run still ends ----

  /** Whether the first asset is the one whose target grows when the total moves up within its two values. */
  predicate FirstTargetGrows(worth: nat, c: Setup)
    requires Sound(c)
  {
    var high := worth / (Pow10(-c.qa.expo) * Pow10(-c.qb.expo));
    high > 0 && TargetA(high, c) > TargetA(high - 1, c)
  }

  /** One while the side being sold is the one that a switch of direction can leave behind. */
  function SwitchesLeft(h: Holdings, c: Setup): nat
    requires Sound(c)
  {
    var d := Decide(h, c);
    if d.Trade? && d.forward == FirstTargetGrows(Worth(h, c), c) then 1 else 0
  }

  /** What is left of the asset being sold. */
  function Stock(h: Holdings, c: Setup): nat
    requires Sound(c)
  {
    var d := Decide(h, c);
    if d.Trade? then Sold(d.forward, h) else 0
  }

  /** At a given worth the floored total takes one of two values. */
  lemma TotalIsOneOfTwo(h: Holdings, c: Setup)
    requires Sound(c)
    ensures var unit := Pow10(-c.qa.expo) * Pow10(-c.qb.expo);
            unit > 0 && Worth(h, c) / unit - 1 <= Total(h, c) <= Worth(h, c) / unit
  {
    var unit := Pow10(-c.qa.expo) * Pow10(-c.qb.expo);
    TotalTracksWorth(h, c);
    FloorAtLeast(Worth(h, c), unit, Total(h, c));
    FloorBelow(Worth(h, c), unit, Total(h, c) + 2);
  }

  /** After a sale, the next tick sells the other asset only if the sold one's target has grown. */
  lemma SwitchNeedsGrowth(h: Holdings, c: Setup)
    requires Sound(c) && Decide(h, c).Trade?
    ensures var d, next := Decide(h, c), Tick(h, c);
            Decide(next, c).Trade? && Decide(next, c).forward != d.forward ==>
              Keep(d.forward, Total(next, c), c) > Keep(d.forward, Total(h, c), c)
  {
    DecisionIsFunded(h, c);
    DecisionIsFunded(Tick(h, c), c);
  }

  /** The targets of the two assets cannot both grow by one unit of total, and neither ever shrinks. */
  lemma OneTargetGrows(forward: bool, low: nat, high: nat, c: Setup)
    requires Sound(c) && Keep(forward, high, c) > Keep(forward, low, c)
    requires high <= low + 1
    ensures high == low + 1
    ensures forward == (TargetA(high, c) > TargetA(low, c))
  {
    if high <= low {
      KeepIsMonotone(forward, high, low, c);
    } else {
      KeepIsMonotone(true, low, high, c);
    }
  }

  lemma KeepIsMonotone(forward: bool, low: nat, high: nat, c: Setup)
    requires Sound(c) && low <= high
    ensures Keep(forward, low, c) <= Keep(forward, high, c)
  {
    var t := c.targetBps;
    MulMonotone(low, high, t);
    FloorMonotone(low * t, high * t, BPS);
    MulMonotone(low, high, BPS - t);
    FloorBounds(low * t, BPS);
    FloorBounds(high * t, BPS);
    assert low * (BPS - t) == low * BPS - low * t && high * (BPS - t) == high * BPS - high * t;
  }

  /** A trade that leaves the worth as it was switches direction, for the only time, or shrinks the stock it sells. */
  lemma FreeTradeMakesProgress(h: Holdings, c: Setup)
    requires Sound(c) && Decide(h, c).Trade? && Worth(Tick(h, c), c) == Worth(h, c)
    ensures var next := Tick(h, c);
            SwitchesLeft(next, c) < SwitchesLeft(h, c)
            || (SwitchesLeft(next, c) <= SwitchesLeft(h, c) && Stock(next, c) < Stock(h, c))
  {
    var d, next := Decide(h, c), Tick(h, c);
    DecisionIsFunded(h, c);
    if Decide(next, c).Trade? && Decide(next, c).forward != d.forward {
      SwitchNeedsGrowth(h, c);
      TotalIsOneOfTwo(h, c);
      TotalIsOneOfTwo(next, c);
      OneTargetGrows(d.forward, Total(h, c), Total(next, c), c);
    }
  }

  /**
   * Rebalancing terminates: at fixed prices, whatever the slippage, there is a tick from which nothing
   * is ever traded again. With at least one basis point of slippage it comes no later than the initial
   * worth.
   */
  lemma {:induction false} RebalanceTerminates(h: Holdings, c: Setup) returns (n: nat)
    requires Sound(c)
    ensures c.slip >= 1 ==> n <= Worth(h, c)
    ensures Decide(Run(h, c, n), c).Idle?
    ensures forall m: nat :: m >= n ==> Run(h, c, m) == Run(h, c, n)
    decreases Worth(h, c), SwitchesLeft(h, c), Stock(h, c)
  {
    if Decide(h, c).Idle? {
      n := 0;
    } else {
      TradeLosesWorth(h, c);
      if Worth(Tick(h, c), c) == Worth(h, c) {
        FreeTradeMakesProgress(h, c);
      }
      n := RebalanceTerminates(Tick(h, c), c);
      n := n + 1;
    }
    forall m: nat | m >= n ensures Run(h, c, m) == Run(h, c, n) {
      RunAppend(h, c, n, m - n);
      IdleIsStill(Run(h, c, n), c, m - n);
    }
  }

  // ---- direction and size by exact shares ----

  /**
   * The direction by exact shares of the total: the first asset is sold only when it is worth more than
   * its share, the second only when the first is short of its share by a dollar unit or more.
   */
  lemma DirectionByShare(h: Holdings, c: Setup)
    requires Sound(c)
    ensures var d, va, total := Decide(h, c), Usd(h.a, c.qa), Usd(h.a, c.qa) + Usd(h.b, c.qb);
            && (d.Trade? && d.forward ==> va * BPS > total * c.targetBps)
            && (d.Trade? && !d.forward ==> (va + 1) * BPS <= total * c.targetBps)
  {
    var va, total := Usd(h.a, c.qa), Total(h, c);
    FloorAtLeastIff(total * c.targetBps, BPS, va);
    FloorAtLeastIff(total * c.targetBps, BPS, va + 1);
  }

  /** At shares off by a whole dollar unit a tick does trade, once its sale and its proceeds are not nothing. */
  lemma TradesByShare(h: Holdings, c: Setup)
    requires Sound(c)
    requires var va, total := Usd(h.a, c.qa), Usd(h.a, c.qa) + Usd(h.b, c.qb);
             va * BPS > total * c.targetBps || (va + 1) * BPS <= total * c.targetBps
    ensures var va, total := Usd(h.a, c.qa), Usd(h.a, c.qa) + Usd(h.b, c.qb);
            var forward := va * BPS > total * c.targetBps;
            var from, to := SoldQuote(forward, c), SoldQuote(!forward, c);
            var size := SellSize(Distance(va, total * c.targetBps / BPS), from, c.cap);
            Decide(h, c)
            == if size == 0 || FairOutput(size, from, to, c.slip) == 0 then Idle
               else Trade(forward, size, FairOutput(size, from, to, c.slip))
  {
    var va, total := Usd(h.a, c.qa), Total(h, c);
    FloorAtLeastIff(total * c.targetBps, BPS, va);
    FloorAtLeastIff(total * c.targetBps, BPS, va + 1);
  }

  /** A balance is worth the dollars that its units times the price make up, rounded down. */
  lemma UsdIsFloor(amount: nat, price: nat, k: int, v: nat)
    requires k >= 0
    ensures Usd(amount, Quote(price, -k)) == v <==> v * Pow10(k) <= amount * price < (v + 1) * Pow10(k)
  {
    FloorBounds(amount * price, Pow10(k));
    if v * Pow10(k) <= amount * price < (v + 1) * Pow10(k) {
      FloorUnique(amount * price, Pow10(k), v);
    }
  }
}
