/**
 * Two valuations of a holding in micro-USD: the program's checked `oracle_value_usd` and the web
 * app's `computeNav`; and the swap guard that the keeper's quotes have to pass on chain.
 */
module Valuation {
  import opened Wrappers
  import opened Arithmetic
  import opened Pricing
  import Codec

  // ---- the on-chain program: u128 with checked products ----

  datatype ProgramError =
    | OracleNotApproved | InvalidPriceFeed | PriceUnavailable | InvalidPrice | CalculateOverflow | Panic

  /** The oracle pool and what `get_price_no_older_than` answered for its feed. */
  datatype Oracle = Oracle(isApproved: bool, feedParses: bool, price: Option<Quote>)

  function CheckedMul(a: nat, b: nat): Result<nat, ProgramError> {
    if a * b < U128 then Success(a * b) else Failure(CalculateOverflow)
  }

  /** `10u128.pow(n)` panics on overflow. */
  function CheckedPow10(n: nat): Result<nat, ProgramError> {
    if Pow10(n) < U128 then Success(Pow10(n)) else Failure(Panic)
  }

  function OracleValueUsd(oracle: Oracle, decimals: nat, amount: nat): Result<nat, ProgramError> {
    if !oracle.isApproved then Failure(OracleNotApproved)
    else if !oracle.feedParses then Failure(InvalidPriceFeed)
    else if oracle.price.None? then Failure(PriceUnavailable)
    else if oracle.price.value.price <= 0 then Failure(InvalidPrice)
    else
      var q := oracle.price.value;
      var netExponent := 6 + q.expo - decimals;
      var scaled :- CheckedMul(amount, q.price);
      if netExponent >= 0 then
        var power :- CheckedPow10(netExponent);
        CheckedMul(scaled, power)
      else
        var power :- CheckedPow10(-netExponent);
        FloorAtLeast(scaled, power, 0);
        Success(scaled / power)
  }

  // ---- the web app: unbounded integers ----

  /** Micro-USD value of a holding, BigInt division rounding towards zero. */
  function MicroUsd(amount: int, q: Quote, decimals: int): int {
    var shift := 6 + q.expo - decimals;
    if shift >= 0 then amount * q.price * Pow10(shift) else TruncDiv(amount * q.price, Pow10(-shift))
  }

  /** The first product never overflows: a 64-bit amount times a positive 63-bit price. */
  lemma ProductFits(amount: nat, price: nat)
    requires amount < U64 && price < I64
    ensures amount * price < U128
  {
    MulMonotone(amount, U64, price);
    MulMonotone(price, I64, U64);
  }

  /**
   * The two valuations agree: for an approved oracle with a positive price the program returns the
   * app's value, or CalculateOverflow exactly when that value needs 128 bits or more; beyond a
   * scaling exponent of 38 either way it panics.
   */
  lemma ValuationsAgree(oracle: Oracle, decimals: nat, amount: nat)
    requires oracle.isApproved && oracle.feedParses && oracle.price.Some?
    requires 0 < oracle.price.value.price < I64 && amount < U64
    ensures var q := oracle.price.value;
            var net, v := 6 + q.expo - decimals, MicroUsd(amount, q, decimals);
            OracleValueUsd(oracle, decimals, amount)
            == if net > 38 || net < -38 then Failure(Panic)
               else if v >= U128 then Failure(CalculateOverflow)
               else Success(v)
  {
    var q := oracle.price.value;
    var net := 6 + q.expo - decimals;
    ProductFits(amount, q.price);
    Pow10Fits(if net >= 0 then net else -net);
    if net < 0 {
      ScaledDownFits(amount * q.price, Pow10(-net));
    }
  }

  lemma ScaledDownFits(scaled: nat, power: nat)
    requires power > 0 && scaled < U128
    ensures 0 <= TruncDiv(scaled, power) == scaled / power < U128
  {
    FloorAtLeast(scaled, power, 0);
    MulMonotone(1, power, U128);
    FloorBelow(scaled, power, U128);
  }

  /** Every other oracle is refused with the error of the first check that it fails. */
  lemma OracleErrors(oracle: Oracle, decimals: nat, amount: nat)
    ensures var r := OracleValueUsd(oracle, decimals, amount);
            && (!oracle.isApproved ==> r == Failure(OracleNotApproved))
            && (oracle.isApproved && !oracle.feedParses ==> r == Failure(InvalidPriceFeed))
            && (oracle.isApproved && oracle.feedParses ==>
                  && (oracle.price.None? ==> r == Failure(PriceUnavailable))
                  && (oracle.price.Some? ==> (oracle.price.value.price <= 0 <==> r == Failure(InvalidPrice))))
  {}

  /** Valuing a holding in two parts loses at most one micro-USD, and nothing when no division happens. */
  lemma SplitLosesAtMostOne(a: nat, b: nat, q: Quote, decimals: int)
    requires q.price >= 0
    ensures var whole, parts := MicroUsd(a + b, q, decimals), MicroUsd(a, q, decimals) + MicroUsd(b, q, decimals);
            parts <= whole <= parts + 1 && (6 + q.expo - decimals >= 0 ==> parts == whole)
  {
    var shift := 6 + q.expo - decimals;
    assert (a + b) * q.price == a * q.price + b * q.price;
    if shift >= 0 {
      assert (a * q.price + b * q.price) * Pow10(shift) == a * q.price * Pow10(shift) + b * q.price * Pow10(shift);
    } else {
      FloorOfSum(a * q.price, b * q.price, Pow10(-shift));
    }
  }

  lemma FloorOfSum(m: int, n: int, d: int)
    requires d > 0
    ensures m / d + n / d <= (m + n) / d <= m / d + n / d + 1
  {
    var x, y := m / d, n / d;
    FloorBounds(m, d);
    FloorBounds(n, d);
    assert (x + y) * d == x * d + y * d;
    assert (x + y + 2) * d == (x + 1) * d + (y + 1) * d;
    FloorAtLeast(m + n, d, x + y);
    FloorBelow(m + n, d, x + y + 2);
  }

  // ---- computeNav ----

  /** What the chain answers for a mint: the vault's balance, decimals, and the bytes of the price account, if any. */
  datatype MintInfo = MintInfo(amount: nat, decimals: int, account: Option<seq<Codec.Byte>>)

  datatype Holding = Holding(mint: string, amount: nat, decimals: int, valueMicroUsd: int)

  datatype Nav = Nav(navMicroUsd: int, raisedMicroUsd: int, pnlBps: int, holdings: seq<Holding>)

  type Chain = map<string, MintInfo>

  /** Keeps each mint where it occurs first. */
  function FirstOccurrences(s: seq<string>): seq<string> {
    if s == [] then []
    else
      var front := FirstOccurrences(s[..|s| - 1]);
      if s[|s| - 1] in s[..|s| - 1] then front else front + [s[|s| - 1]]
  }

  /** The holding a mint contributes, unless its balance is zero or it has no price. */
  function HoldingOf(m: string, chain: Chain): Option<Holding> {
    if m !in chain || chain[m].amount == 0 || chain[m].account.None? then None
    else
      match Codec.TsPrice(chain[m].account.value)
      case Success(p) =>
        var value := MicroUsd(chain[m].amount, Quote(p.price, p.expo), chain[m].decimals);
        Some(Holding(m, chain[m].amount, chain[m].decimals, value))
      case Failure(_) => None
  }

  /** A held mint whose price account is too short to hold a price makes the whole computation throw. */
  predicate Throws(m: string, chain: Chain) {
    && m in chain && chain[m].amount != 0 && chain[m].account.Some?
    && Codec.TsPrice(chain[m].account.value).Failure?
  }

  /** Only the first 81 bytes of the account matter: the price ends there. */
  lemma ThrowsIff(m: string, chain: Chain)
    ensures Throws(m, chain)
            <==> m in chain && chain[m].amount > 0 && chain[m].account.Some? && |chain[m].account.value| < 81
  {}

  function HoldingsOf(mints: seq<string>, chain: Chain): seq<Holding> {
    if mints == [] then []
    else
      var front := HoldingsOf(mints[..|mints| - 1], chain);
      match HoldingOf(mints[|mints| - 1], chain)
      case Some(h) => front + [h]
      case None => front
  }

  function SumValues(holdings: seq<Holding>): int {
    if holdings == [] then 0
    else SumValues(holdings[..|holdings| - 1]) + holdings[|holdings| - 1].valueMicroUsd
  }

  lemma SumAppend(holdings: seq<Holding>, h: Holding)
    ensures SumValues(holdings + [h]) == SumValues(holdings) + h.valueMicroUsd
  {
    assert (holdings + [h])[..|holdings|] == holdings;
  }

  /** Profit over the amount raised, in basis points rounded towards zero. */
  function PnlBps(nav: int, raised: nat): int {
    if raised > 0 then TruncDiv((nav - raised) * 10_000, raised) else 0
  }

  method DistinctMints(all: seq<string>) returns (mints: seq<string>)
    ensures mints == FirstOccurrences(all)
  {
    mints := [];
    for i := 0 to |all|
      invariant mints == FirstOccurrences(all[..i])
    {
      assert all[..i + 1][..i] == all[..i];
      if all[i] !in all[..i] {
        mints := mints + [all[i]];
      }
    }
    assert all[..|all|] == all;
  }

  method ComputeNav(tokenMint: string, registry: seq<string>, chain: Chain, raised: nat)
    returns (r: Result<Nav, Codec.Fault>)
    ensures r.Failure? <==> exists m :: m in [tokenMint] + registry && Throws(m, chain)
    ensures r.Success? ==>
              && r.value.holdings == HoldingsOf(FirstOccurrences([tokenMint] + registry), chain)
              && r.value.navMicroUsd == SumValues(r.value.holdings)
              && r.value.raisedMicroUsd == raised
              && r.value.pnlBps == PnlBps(r.value.navMicroUsd, raised)
  {
    var all := [tokenMint] + registry;
    var mints := DistinctMints(all);
    FirstOccurrencesKeepElements(all);
    var holdings: seq<Holding> := [];
    var navMicro := 0;
    for i := 0 to |mints|
      invariant holdings == HoldingsOf(mints[..i], chain)
      invariant navMicro == SumValues(holdings)
      invariant forall k :: 0 <= k < i ==> !Throws(mints[k], chain)
    {
      var m := mints[i];
      assert mints[..i + 1][..i] == mints[..i];
      if m !in chain || chain[m].amount == 0 {
        continue;
      }
      if chain[m].account.None? {
        continue;
      }
      var price := Codec.TsReadPrice(chain[m].account.value);
      if price.Failure? {
        assert m in Elements(mints) && Throws(m, chain);
        return Failure(price.error);
      }
      var value := MicroUsd(chain[m].amount, Quote(price.value.price, price.value.expo), chain[m].decimals);
      navMicro := navMicro + value;
      SumAppend(holdings, Holding(m, chain[m].amount, chain[m].decimals, value));
      holdings := holdings + [Holding(m, chain[m].amount, chain[m].decimals, value)];
    }
    assert mints[..|mints|] == mints;
    forall m | m in all ensures !Throws(m, chain) {
      assert m in Elements(mints);
    }
    r := Success(Nav(navMicro, raised, PnlBps(navMicro, raised), holdings));
  }

  function Worth(m: string, chain: Chain): int {
    if HoldingOf(m, chain).Some? then HoldingOf(m, chain).value.valueMicroUsd else 0
  }

  /** The value of a set of mints, each counted once. */
  ghost function SetWorth(mints: set<string>, chain: Chain): int {
    if mints == {} then 0
    else
      var m :| m in mints;
      Worth(m, chain) + SetWorth(mints - {m}, chain)
  }

  lemma {:induction false} SetWorthSplits(mints: set<string>, m: string, chain: Chain)
    requires m in mints
    ensures SetWorth(mints, chain) == Worth(m, chain) + SetWorth(mints - {m}, chain)
    decreases |mints|
  {
    var x :| x in mints && SetWorth(mints, chain) == Worth(x, chain) + SetWorth(mints - {x}, chain);
    if x == m {
    } else {
      SetWorthSplits(mints - {x}, m, chain);
      assert mints - {x} - {m} == mints - {m} - {x};
      SetWorthSplits(mints - {m}, x, chain);
    }
  }

  function Elements(s: seq<string>): set<string> {
    set m | m in s
  }

  lemma {:induction false} FirstOccurrencesKeepElements(s: seq<string>)
    ensures Elements(FirstOccurrences(s)) == Elements(s)
    decreases |s|
  {
    if s == [] {
    } else {
      var front, last := s[..|s| - 1], s[|s| - 1];
      FirstOccurrencesKeepElements(front);
      assert s == front + [last];
      assert Elements(s) == Elements(front) + {last};
      if last !in front {
        assert Elements(FirstOccurrences(s)) == Elements(FirstOccurrences(front)) + {last};
      }
    }
  }

  /** The reported value of a registry is the value of its set of mints. */
  lemma {:induction false} NavIsSetWorth(s: seq<string>, chain: Chain)
    ensures SumValues(HoldingsOf(FirstOccurrences(s), chain)) == SetWorth(Elements(s), chain)
    decreases |s|
  {
    if s == [] {
    } else {
      var front, last := s[..|s| - 1], s[|s| - 1];
      NavIsSetWorth(front, chain);
      assert s == front + [last];
      if last in front {
        assert Elements(s) == Elements(front);
      } else {
        SetWorthSplits(Elements(s), last, chain);
        assert Elements(s) - {last} == Elements(front);
        AppendWorth(FirstOccurrences(front), last, chain);
      }
    }
  }

  lemma AppendWorth(mints: seq<string>, m: string, chain: Chain)
    ensures SumValues(HoldingsOf(mints + [m], chain)) == SumValues(HoldingsOf(mints, chain)) + Worth(m, chain)
  {
    assert (mints + [m])[..|mints|] == mints;
    if HoldingOf(m, chain).Some? {
      SumAppend(HoldingsOf(mints, chain), HoldingOf(m, chain).value);
    }
  }

  /** Permuting or duplicating registry entries never changes the total. */
  lemma NavIgnoresOrderAndDuplicates(tokenMint: string, r1: seq<string>, r2: seq<string>, chain: Chain)
    requires Elements([tokenMint] + r1) == Elements([tokenMint] + r2)
    ensures SumValues(HoldingsOf(FirstOccurrences([tokenMint] + r1), chain))
            == SumValues(HoldingsOf(FirstOccurrences([tokenMint] + r2), chain))
  {
    NavIsSetWorth([tokenMint] + r1, chain);
    NavIsSetWorth([tokenMint] + r2, chain);
  }

  /** No mint is reported twice, and exactly the priced mints with a balance are reported. */
  lemma {:induction false} HoldingsAreDistinct(s: seq<string>, chain: Chain)
    ensures var hs := HoldingsOf(FirstOccurrences(s), chain);
            && (forall i, j :: 0 <= i < j < |hs| ==> hs[i].mint != hs[j].mint)
            && (forall i :: 0 <= i < |hs| ==> hs[i].mint in s && HoldingOf(hs[i].mint, chain) == Some(hs[i]))
            && (forall m :: m in s && HoldingOf(m, chain).Some? ==> HoldingOf(m, chain).value in hs)
    decreases |s|
  {
    if s == [] {
    } else {
      var front, last := s[..|s| - 1], s[|s| - 1];
      HoldingsAreDistinct(front, chain);
      assert s == front + [last];
      var f := FirstOccurrences(front);
      assert (f + [last])[..|f|] == f;
    }
  }

  // ---- the reported NAV is the program's valuation ----

  /** The oracle pool the program would use for a price account's contents. */
  function OracleOf(p: Codec.Price): Oracle {
    Oracle(true, true, Some(Quote(p.price, p.expo)))
  }

  /** A held mint with a 64-bit balance whose price account Rust reads as a positive price. */
  predicate ProgramPriced(m: string, chain: Chain) {
    && m in chain && 0 < chain[m].amount < U64 && chain[m].decimals >= 0 && chain[m].account.Some?
    && var p := Codec.RustReadPrice(chain[m].account.value);
       p.Success? && 0 < p.value.price < I64
  }

  /** What the program answers for the balance of such a mint. */
  function ProgramAnswer(m: string, chain: Chain): Result<nat, ProgramError>
    requires ProgramPriced(m, chain)
  {
    OracleValueUsd(OracleOf(Codec.RustReadPrice(chain[m].account.value).value), chain[m].decimals, chain[m].amount)
  }

  /** The app reports such a mint with its own balance and decimals, and at the value the program answers. */
  lemma HoldingIsProgramValue(m: string, chain: Chain)
    requires ProgramPriced(m, chain)
    ensures var h := HoldingOf(m, chain);
            && h.Some? && h.value.mint == m
            && h.value.amount == chain[m].amount && h.value.decimals == chain[m].decimals
            && (ProgramAnswer(m, chain).Success? ==> h.value.valueMicroUsd == ProgramAnswer(m, chain).value)
            && (ProgramAnswer(m, chain) == Failure(CalculateOverflow) ==> h.value.valueMicroUsd >= U128)
  {
    var data := chain[m].account.value;
    Codec.ReadI32IsSigned(data, Codec.EXPO_OFFSET);
    ValuationsAgree(OracleOf(Codec.RustReadPrice(data).value), chain[m].decimals, chain[m].amount);
  }

  /** What the program answers for the mints of a set, each once; one without a balance or a price counts nothing. */
  ghost function ProgramTotal(mints: set<string>, chain: Chain): int
    requires forall m :: m in mints && ProgramPriced(m, chain) ==> ProgramAnswer(m, chain).Success?
  {
    if mints == {} then 0
    else
      var m :| m in mints;
      (if ProgramPriced(m, chain) then ProgramAnswer(m, chain).value else 0) + ProgramTotal(mints - {m}, chain)
  }

  /** A mint that the app passes over: no balance, or no price account. */
  predicate PassedOver(m: string, chain: Chain) {
    m !in chain || chain[m].amount == 0 || chain[m].account.None?
  }

  lemma {:induction false} SetWorthIsProgramTotal(mints: set<string>, chain: Chain)
    requires forall m :: m in mints ==> PassedOver(m, chain) || ProgramPriced(m, chain)
    requires forall m :: m in mints && ProgramPriced(m, chain) ==> ProgramAnswer(m, chain).Success?
    ensures SetWorth(mints, chain) == ProgramTotal(mints, chain)
    decreases |mints|
  {
    if mints == {} {
    } else {
      var m :| m in mints
             && ProgramTotal(mints, chain)
                == (if ProgramPriced(m, chain) then ProgramAnswer(m, chain).value else 0)
                   + ProgramTotal(mints - {m}, chain);
      SetWorthSplits(mints, m, chain);
      SetWorthIsProgramTotal(mints - {m}, chain);
      if ProgramPriced(m, chain) {
        HoldingIsProgramValue(m, chain);
      }
    }
  }

  /**
   * The NAV is the program's valuation of the vault: when the program can value every mint that the
   * registry names and the vault holds at a price, the reported total is the sum of its answers.
   */
  lemma NavIsProgramTotal(tokenMint: string, registry: seq<string>, chain: Chain)
    requires var mints := Elements([tokenMint] + registry);
             && (forall m :: m in mints ==> PassedOver(m, chain) || ProgramPriced(m, chain))
             && (forall m :: m in mints && ProgramPriced(m, chain) ==> ProgramAnswer(m, chain).Success?)
    ensures SumValues(HoldingsOf(FirstOccurrences([tokenMint] + registry), chain))
            == ProgramTotal(Elements([tokenMint] + registry), chain)
  {
    NavIsSetWorth([tokenMint] + registry, chain);
    SetWorthIsProgramTotal(Elements([tokenMint] + registry), chain);
  }

  /**
   * The unit of value: base units of a mint with so many decimals, at a price with exponent -k, that come
   * to v whole dollars are worth v million micro-USD.
   */
  lemma WholeDollarsAreMillions(amount: nat, price: nat, v: nat, decimals: nat, k: int)
    requires k >= 0 && amount * price == v * Pow10(decimals + k)
    ensures MicroUsd(amount, Quote(price, -k), decimals) == v * 1_000_000
  {
    ScaledWhole(v, decimals + k);
    ScaledValue(amount, price, v * Pow10(decimals + k), decimals, k);
  }

  /** A holding's value depends on the product of amount and price alone. */
  lemma ScaledValue(amount: nat, price: nat, product: nat, decimals: nat, k: int)
    requires k >= 0 && amount * price == product
    ensures MicroUsd(amount, Quote(price, -k), decimals)
            == if decimals + k <= 6 then product * Pow10(6 - decimals - k)
               else TruncDiv(product, Pow10(decimals + k - 6))
  {}

  lemma ScaledWhole(v: nat, e: nat)
    ensures var value := v * Pow10(e);
            v * 1_000_000 == if e <= 6 then value * Pow10(6 - e) else TruncDiv(value, Pow10(e - 6))
  {
    assert Pow10(6) == 1_000_000 by {
      assert Pow10(3) == 1000;
    }
    if e <= 6 {
      Pow10Add(e, 6 - e);
      MulAssoc(v, Pow10(e), Pow10(6 - e));
    } else {
      Pow10Add(6, e - 6);
      MulAssoc(v, Pow10(6), Pow10(e - 6));
      MulStrict(0, 1, Pow10(e - 6));
      MulAdd(v * Pow10(6), 1, Pow10(e - 6));
      FloorUnique(v * Pow10(e), Pow10(e - 6), v * Pow10(6));
    }
  }

  /** The profit in basis points is the exact one rounded towards zero, so it has the sign of what was gained. */
  lemma ProfitIsRounded(nav: int, raised: nat)
    requires raised > 0
    ensures var pnl, exact := PnlBps(nav, raised), (nav - raised) * 10_000;
            && (nav >= raised ==> 0 <= pnl * raised <= exact < (pnl + 1) * raised)
            && (nav <= raised ==> (pnl - 1) * raised < exact <= pnl * raised <= 0)
  {
    var exact := (nav - raised) * 10_000;
    if exact >= 0 {
      FloorBounds(exact, raised);
      FloorAtLeast(exact, raised, 0);
      MulMonotone(0, exact / raised, raised);
    } else {
      FloorBounds(-exact, raised);
      FloorAtLeast(-exact, raised, 0);
      MulMonotone(0, -exact / raised, raised);
      MulSub(0, -exact / raised, raised);
      MulSub(0, -exact / raised + 1, raised);
    }
  }

  /** A vault that has raised nothing reports no profit. */
  lemma NothingRaisedNoProfit(nav: int)
    ensures PnlBps(nav, 0) == 0
  {}

  // ---- the on-chain slippage guard against the keeper's quote ----

  predicate PassesSlippageGuard(inputValueUsd: nat, outputValueUsd: nat, maxSlippageBps: nat)
    requires maxSlippageBps <= BPS
  {
    outputValueUsd * BPS >= inputValueUsd * (BPS - maxSlippageBps)
  }

  // ---- exactly when a keeper swap passes ----

  /** The least output value that the guard accepts for an input value. */
  function NeededValue(inputValueUsd: nat, maxSlippageBps: nat): nat
    requires maxSlippageBps <= BPS
  {
    CeilDiv(inputValueUsd * (BPS - maxSlippageBps), BPS)
  }

  /** The least amount of an asset that is worth a given value. */
  function LeastAmount(value: nat, q: Quote, decimals: int): nat
    requires Priced(q)
  {
    var shift := 6 + q.expo - decimals;
    if shift >= 0 then
      MulStrict(0, Pow10(shift), q.price);
      CeilDiv(value, Pow10(shift) * q.price)
    else CeilDiv(value * Pow10(-shift), q.price)
  }

  /** Whether the exact quotient of a trade still yields an amount once slippage is taken off. */
  predicate YieldsAtLeast(x: nat, from: Quote, to: Quote, slip: nat, least: nat)
    requires from.price >= 0 && Priced(to) && slip <= BPS
  {
    if slip == BPS then least == 0
    else Numerator(x, from, to) >= CeilDiv(least * BPS, BPS - slip) * Denominator(from, to)
  }

  lemma LeastAmountIff(r: nat, value: nat, q: Quote, decimals: int)
    requires Priced(q)
    ensures LeastAmount(value, q, decimals) <= r <==> value <= MicroUsd(r, q, decimals)
  {
    var shift := 6 + q.expo - decimals;
    if shift >= 0 {
      MulStrict(0, Pow10(shift), q.price);
      CeilAtMostIff(value, Pow10(shift) * q.price, r);
      MulSwap(r, Pow10(shift), q.price);
      MulAssoc(r, Pow10(shift), q.price);
    } else {
      CeilAtMostIff(value * Pow10(-shift), q.price, r);
      FloorAtLeastIff(r * q.price, Pow10(-shift), value);
    }
  }

  lemma YieldsAtLeastIff(x: nat, from: Quote, to: Quote, slip: nat, least: nat)
    requires from.price >= 0 && Priced(to) && slip <= BPS
    ensures least <= FairOutput(x, from, to, slip) <==> YieldsAtLeast(x, from, to, slip, least)
  {
    var fair, keep := FairBeforeSlippage(x, from, to), BPS - slip;
    FloorAtLeastIff(fair * keep, BPS, least);
    if slip < BPS {
      var before := CeilDiv(least * BPS, keep);
      CeilAtMostIff(least * BPS, keep, fair);
      FairIsOneFloor(x, from, to);
      FloorAtLeastIff(Numerator(x, from, to), Denominator(from, to), before);
    }
  }

  /**
   * A keeper swap passes the guard exactly when the exact quotient of its prices reaches what the least
   * sufficient output takes before slippage. Every term is known before the swap is sent; at the
   * program's own limit, which is the keeper's default, there is no other margin.
   */
  lemma KeeperSwapPassesIff(x: nat, from: Quote, to: Quote, fromDecimals: int, toDecimals: int, slip: nat,
                            maxSlip: nat)
    requires Priced(from) && Priced(to) && slip <= BPS && maxSlip <= BPS
    ensures MicroUsd(x, from, fromDecimals) >= 0 && MicroUsd(FairOutput(x, from, to, slip), to, toDecimals) >= 0
    ensures var need := NeededValue(MicroUsd(x, from, fromDecimals), maxSlip);
            PassesSlippageGuard(MicroUsd(x, from, fromDecimals),
                                MicroUsd(FairOutput(x, from, to, slip), to, toDecimals), maxSlip)
            <==> YieldsAtLeast(x, from, to, slip, LeastAmount(need, to, toDecimals))
  {
    var r, vin := FairOutput(x, from, to, slip), MicroUsd(x, from, fromDecimals);
    MicroUsdNonNegative(x, from, fromDecimals);
    AmountPassesIff(vin, r, to, toDecimals, maxSlip);
    YieldsAtLeastIff(x, from, to, slip, LeastAmount(NeededValue(vin, maxSlip), to, toDecimals));
  }

  lemma AmountPassesIff(vin: nat, r: nat, to: Quote, decimals: int, maxSlip: nat)
    requires Priced(to) && maxSlip <= BPS
    ensures MicroUsd(r, to, decimals) >= 0
    ensures PassesSlippageGuard(vin, MicroUsd(r, to, decimals), maxSlip)
            <==> LeastAmount(NeededValue(vin, maxSlip), to, decimals) <= r
  {
    MicroUsdNonNegative(r, to, decimals);
    CeilAtMostIff(vin * (BPS - maxSlip), BPS, MicroUsd(r, to, decimals));
    LeastAmountIff(r, NeededValue(vin, maxSlip), to, decimals);
  }

  // ---- margins that decide it by slippage and value alone ----

  lemma MicroUsdNonNegative(amount: nat, q: Quote, decimals: int)
    requires q.price >= 0
    ensures MicroUsd(amount, q, decimals) >= 0
  {
    var shift := 6 + q.expo - decimals;
    if shift < 0 {
      FloorAtLeast(amount * q.price, Pow10(-shift), 0);
    }
  }

  /** The floored value and the exact one, at a scale where both are integers. */
  lemma MicroUsdTracksWeight(amount: nat, q: Quote, decimals: int, extra: nat)
    requires q.price >= 0 && 6 + q.expo - decimals + extra >= 0
    ensures var v := MicroUsd(amount, q, decimals);
            v * Pow10(extra) <= amount * Weight(q, 6 - decimals + extra) < (v + 1) * Pow10(extra)
  {
    var shift := 6 + q.expo - decimals;
    MulAssoc(amount, q.price, Pow10(shift + extra));
    if shift >= 0 {
      ScaledUpExactly(amount * q.price, shift, extra);
    } else {
      ScaledDownTracks(amount * q.price, -shift, extra);
    }
  }

  lemma ScaledUpExactly(value: nat, shift: nat, extra: nat)
    ensures var v := value * Pow10(shift);
            v * Pow10(extra) == value * Pow10(shift + extra) < (v + 1) * Pow10(extra)
  {
    Pow10Add(shift, extra);
    MulAssoc(value, Pow10(shift), Pow10(extra));
    MulAdd(value * Pow10(shift), 1, Pow10(extra));
  }

  lemma ScaledDownTracks(value: nat, shift: nat, extra: nat)
    requires shift <= extra
    ensures var v := TruncDiv(value, Pow10(shift));
            v * Pow10(extra) <= value * Pow10(extra - shift) < (v + 1) * Pow10(extra)
  {
    var d, rest, v := Pow10(shift), Pow10(extra - shift), value / Pow10(shift);
    Pow10Add(shift, extra - shift);
    FloorBounds(value, d);
    MulMonotone(v * d, value, rest);
    MulStrict(value, (v + 1) * d, rest);
    MulAssoc(v, d, rest);
    MulAssoc(v + 1, d, rest);
  }

  /** With more decimals the same amount is worth less: ten times less for each one. */
  lemma MicroUsdByDecimals(amount: nat, q: Quote, decimals: int, more: nat)
    requires q.price >= 0
    ensures MicroUsd(amount, q, decimals + more) >= 0
    ensures MicroUsd(amount, q, decimals + more) * Pow10(more) <= MicroUsd(amount, q, decimals)
    ensures MicroUsd(amount, q, decimals + more) <= MicroUsd(amount, q, decimals)
  {
    var extra: nat := Max(0, decimals + more - 6 - q.expo);
    MicroUsdNonNegative(amount, q, decimals + more);
    MicroUsdTracksWeight(amount, q, decimals + more, extra);
    MicroUsdTracksWeight(amount, q, decimals, extra);
    var wide := 6 - decimals - more + extra;
    Pow10Add(q.expo + wide, more);
    MulAssoc(q.price, Pow10(q.expo + wide), Pow10(more));
    FinerIsSmaller(MicroUsd(amount, q, decimals + more), MicroUsd(amount, q, decimals), amount, Weight(q, wide),
                   Pow10(more), Pow10(extra));
  }

  lemma FinerIsSmaller(low: nat, high: int, amount: nat, weight: nat, m: nat, p: nat)
    requires m > 0 && p > 0 && low * p <= amount * weight && amount * (weight * m) < (high + 1) * p
    ensures low * m <= high && low <= high
  {
    MulAssoc(amount, weight, m);
    MulMonotone(low * p, amount * weight, m);
    MulSwap(low, p, m);
    MulCancelStrict(low * m, high + 1, p);
    MulMonotone(1, m, low);
  }

  /**
   * A keeper swap into an asset with no more decimals passes the guard once the margin between the
   * program's limit and the bot's slippage covers the rounding: two output units and three micro-USD.
   */
  lemma KeeperSwapPassesGuard(x: nat, from: Quote, to: Quote, fromDecimals: int, toDecimals: int, slip: nat,
                              maxSlip: nat)
    requires Priced(from) && Priced(to) && slip <= maxSlip <= BPS && toDecimals <= fromDecimals
    requires MicroUsd(x, from, fromDecimals) * (maxSlip - slip) >= (2 * MicroUsd(1, to, fromDecimals) + 3) * BPS
    ensures MicroUsd(x, from, fromDecimals) >= 0 && MicroUsd(FairOutput(x, from, to, slip), to, toDecimals) >= 0
    ensures PassesSlippageGuard(MicroUsd(x, from, fromDecimals),
                                MicroUsd(FairOutput(x, from, to, slip), to, toDecimals), maxSlip)
  {
    var vin := MicroUsd(x, from, fromDecimals);
    var r := FairOutput(x, from, to, slip);
    MicroUsdNonNegative(x, from, fromDecimals);
    MicroUsdByDecimals(r, to, toDecimals, fromDecimals - toDecimals);
    SwapKeepsValue(x, from, to, fromDecimals, slip);
    assert vin * (BPS - slip) == vin * (BPS - maxSlip) + vin * (maxSlip - slip);
  }

  /** Valued at one number of decimals, a swap keeps its unslipped part but for the rounding. */
  lemma SwapKeepsValue(x: nat, from: Quote, to: Quote, decimals: int, slip: nat)
    requires Priced(from) && Priced(to) && slip <= BPS
    ensures MicroUsd(x, from, decimals) * (BPS - slip)
            < (MicroUsd(FairOutput(x, from, to, slip), to, decimals) + 2 * MicroUsd(1, to, decimals) + 3) * BPS
  {
    var r := FairOutput(x, from, to, slip);
    MicroUsdNonNegative(x, from, decimals);
    MicroUsdNonNegative(r, to, decimals);
    MicroUsdNonNegative(1, to, decimals);
    var extra: nat := Max(0, Max(decimals - 6 - from.expo, decimals - 6 - to.expo));
    var scale, p := 6 - decimals + extra, Pow10(extra);
    var vin, vout, unit := MicroUsd(x, from, decimals), MicroUsd(r, to, decimals), MicroUsd(1, to, decimals);
    MicroUsdTracksWeight(x, from, decimals, extra);
    MicroUsdTracksWeight(r, to, decimals, extra);
    MicroUsdTracksWeight(1, to, decimals, extra);
    FairOutputBounds(x, from, to, slip);
    var u := QuotientIsWeightRatio(x, from, to, scale);
    var wf, wt := Weight(from, scale), Weight(to, scale);
    RoundingMargin(x * wf, r, wt, BPS - slip, vin, vout, unit, p) by {
      var n, d := Numerator(x, from, to), Denominator(from, to);
      MulStrict(n * (BPS - slip), (r + 2) * BPS * d, u);
      MulSwap(n, BPS - slip, u);
      MulAssoc((r + 2) * BPS, d, u);
      assert n * u * (BPS - slip) == n * (BPS - slip) * u;
      MulSwap(r + 2, BPS, wt);
    }
  }

  /** Valued at one number of decimals, a swap brings in at most the unslipped part of a value one unit higher. */
  lemma SwapLosesValue(x: nat, from: Quote, to: Quote, decimals: int, slip: nat)
    requires Priced(from) && Priced(to) && slip <= BPS
    ensures MicroUsd(FairOutput(x, from, to, slip), to, decimals) * BPS
            <= (MicroUsd(x, from, decimals) + 1) * (BPS - slip)
  {
    var r := FairOutput(x, from, to, slip);
    var extra: nat := Max(0, Max(decimals - 6 - from.expo, decimals - 6 - to.expo));
    var scale, p := 6 - decimals + extra, Pow10(extra);
    var vin, vout := MicroUsd(x, from, decimals), MicroUsd(r, to, decimals);
    var wf, wt := Weight(from, scale), Weight(to, scale);
    MicroUsdTracksWeight(x, from, decimals, extra);
    MicroUsdTracksWeight(r, to, decimals, extra);
    ConversionLosesValue(x, from, to, slip, scale);
    ScaledLoss(vin, x * wf, vout, r * wt, BPS - slip, p);
  }

  lemma ScaledLoss(vin: int, worthIn: nat, vout: int, worthOut: nat, keep: nat, p: nat)
    requires p > 0 && worthIn < (vin + 1) * p && vout * p <= worthOut && worthOut * BPS <= worthIn * keep
    ensures vout * BPS <= (vin + 1) * keep
  {
    MulMonotone(vout * p, worthOut, BPS);
    MulMonotone(worthIn, (vin + 1) * p, keep);
    MulSwap(vout, p, BPS);
    MulSwap(vin + 1, p, keep);
    MulCancel(vout * BPS, (vin + 1) * keep, p);
  }

  /**
   * The guard rejects a keeper swap into an asset with no fewer decimals once the program's limit, ten
   * times stricter for each decimal more because the keeper ignores them, exceeds what the bot's
   * slippage leaves. At equal decimals that is slippage over the limit by more than the rounding.
   */
  lemma KeeperSwapIsRejected(x: nat, from: Quote, to: Quote, fromDecimals: int, more: nat, slip: nat, maxSlip: nat)
    requires Priced(from) && Priced(to) && slip <= BPS && maxSlip <= BPS
    requires var vin := MicroUsd(x, from, fromDecimals);
             (vin + 1) * (BPS - slip) < vin * (BPS - maxSlip) * Pow10(more)
    ensures MicroUsd(x, from, fromDecimals) >= 0
    ensures MicroUsd(FairOutput(x, from, to, slip), to, fromDecimals + more) >= 0
    ensures !PassesSlippageGuard(MicroUsd(x, from, fromDecimals),
                                 MicroUsd(FairOutput(x, from, to, slip), to, fromDecimals + more), maxSlip)
  {
    var vin, r := MicroUsd(x, from, fromDecimals), FairOutput(x, from, to, slip);
    var vout := MicroUsd(r, to, fromDecimals + more);
    MicroUsdNonNegative(x, from, fromDecimals);
    MicroUsdByDecimals(r, to, fromDecimals, more);
    SwapLosesValue(x, from, to, fromDecimals, slip);
    MulMonotone(vout * Pow10(more), MicroUsd(r, to, fromDecimals), BPS);
    MulSwap(vout, Pow10(more), BPS);
    MulCancelStrict(vout * BPS, vin * (BPS - maxSlip), Pow10(more));
  }

  /** At equal decimals, in terms of the slippage alone. */
  lemma ExcessSlippageIsRejected(x: nat, from: Quote, to: Quote, decimals: int, slip: nat, maxSlip: nat)
    requires Priced(from) && Priced(to) && maxSlip <= slip <= BPS
    requires MicroUsd(x, from, decimals) * (slip - maxSlip) > BPS - slip
    ensures MicroUsd(x, from, decimals) >= 0 && MicroUsd(FairOutput(x, from, to, slip), to, decimals) >= 0
    ensures !PassesSlippageGuard(MicroUsd(x, from, decimals),
                                 MicroUsd(FairOutput(x, from, to, slip), to, decimals), maxSlip)
  {
    var vin := MicroUsd(x, from, decimals);
    assert (vin + 1) * (BPS - slip) < vin * (BPS - maxSlip) * Pow10(0) by {
      assert vin * (BPS - maxSlip) == vin * (slip - maxSlip) + vin * (BPS - slip);
    }
    KeeperSwapIsRejected(x, from, to, decimals, 0, slip, maxSlip);
  }

  lemma RoundingMargin(worth: nat, r: nat, wt: nat, keep: nat, vin: nat, vout: nat, unit: int, p: nat)
    requires p > 0 && vin * p <= worth && r * wt < (vout + 1) * p && wt < (unit + 1) * p
    requires worth * keep < (r + 2) * wt * BPS
    ensures vin * keep < (vout + 2 * unit + 3) * BPS
  {
    MulMonotone(vin * p, worth, keep);
    MulSwap(vin, p, keep);
    assert (r + 2) * wt == r * wt + 2 * wt;
    assert (vout + 2 * unit + 3) * p == (vout + 1) * p + 2 * ((unit + 1) * p);
    MulSwap(vout + 2 * unit + 3, p, BPS);
    MulCancelStrict(vin * keep, (vout + 2 * unit + 3) * BPS, p);
  }

  /** Without a margin the rounding alone can fail the guard: a bot at the program's own 1 % limit. */
  lemma DefaultSlippageCanBeRejected()
    ensures var from, to := Quote(3_0000_0000, -8), Quote(7_0000_0000, -8);
            var r := FairOutput(1000, from, to, 100);
            && r == 423
            && MicroUsd(1000, from, 6) == 3000 && MicroUsd(r, to, 6) == 2961
            && !PassesSlippageGuard(3000, 2961, 100)
  {
    assert Pow10(8) == 100_000_000 by {
      assert Pow10(4) == 10_000;
    }
    assert Pow10(0) == 1;
  }
}
