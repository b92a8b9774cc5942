/**
 * Oracle-mid pricing of a trade: the amount of one asset that a given amount of another is
 * worth at two Pyth quotes, less a slippage allowance. This is the single specification that the
 * Rust keeper's `fair_output` and the TypeScript keeper's `trade` are both proved against.
 */
module Pricing {
  import opened Arithmetic

  const BPS: nat := 10_000

  /** A Pyth quote: one base unit is worth price * 10^expo. */
  datatype Quote = Quote(price: int, expo: int)

  predicate Priced(q: Quote) {
    q.price > 0
  }

  /** The scaling step: multiply when the exponent gap is non-negative, floor-divide otherwise. */
  function Rescale(x: nat, shift: int): nat {
    if shift >= 0 then x * Pow10(shift)
    else
      FloorAtLeast(x, Pow10(-shift), 0);
      x / Pow10(-shift)
  }

  function FairBeforeSlippage(x: nat, from: Quote, to: Quote): nat
    requires from.price >= 0 && Priced(to)
  {
    Rescale(x * from.price, from.expo - to.expo) / to.price
  }

  function FairOutput(x: nat, from: Quote, to: Quote, slip: nat): nat
    requires from.price >= 0 && Priced(to) && slip <= BPS
  {
    FairBeforeSlippage(x, from, to) * (BPS - slip) / BPS
  }

  // ---- the exact quotient Numerator / Denominator behind the staged floors ----

  function Numerator(x: nat, from: Quote, to: Quote): nat
    requires from.price >= 0
  {
    x * from.price * Pow10(Max(0, from.expo - to.expo))
  }

  function Denominator(from: Quote, to: Quote): (d: nat)
    requires Priced(to)
    ensures d > 0
  {
    assert to.price * Pow10(Max(0, to.expo - from.expo)) > 0;
    to.price * Pow10(Max(0, to.expo - from.expo))
  }

  /** The shift-then-divide pipeline is one floor of the exact quotient. */
  lemma FairIsOneFloor(x: nat, from: Quote, to: Quote)
    requires from.price >= 0 && Priced(to)
    ensures FairBeforeSlippage(x, from, to) == Numerator(x, from, to) / Denominator(from, to)
  {
    var shift, v := from.expo - to.expo, x * from.price;
    if shift < 0 {
      FloorOfFloor(v, Pow10(-shift), to.price);
      assert Denominator(from, to) == to.price * Pow10(-shift);
      assert Pow10(-shift) * to.price == to.price * Pow10(-shift);
      assert Numerator(x, from, to) == v * Pow10(0) == v;
    } else {
      assert Denominator(from, to) == to.price * Pow10(0) == to.price;
    }
  }

  lemma SlippedBounds(n: nat, d: nat, c: nat)
    requires d > 0 && c <= BPS
    ensures n / d * c / BPS * BPS * d <= n * c < (n / d * c / BPS + 2) * BPS * d
  {
    var f := n / d;
    var r := f * c / BPS;
    FloorBounds(n, d);
    FloorBounds(f * c, BPS);
    MulMonotone(r * BPS, f * c, d);
    MulMonotone(f * d, n, c);
    assert f * c * d == f * d * c by {
      MulSwap(f, c, d);
    }
    MulMonotone(n, (f + 1) * d, c);
    assert (f + 1) * d * c == (f * c + c) * d by {
      MulSwap(f + 1, d, c);
    }
    MulStrict(f * c + c, (r + 2) * BPS, d);
  }

  /**
   * After slippage the result is at most the exact slipped value and more than that value minus
   * two units: with N/D the exact quotient, r <= N(10000-s)/(10000 D) < r + 2.
   */
  lemma FairOutputBounds(x: nat, from: Quote, to: Quote, slip: nat)
    requires from.price >= 0 && Priced(to) && slip <= BPS
    ensures var r, n, d := FairOutput(x, from, to, slip), Numerator(x, from, to), Denominator(from, to);
            r * BPS * d <= n * (BPS - slip) < (r + 2) * BPS * d
  {
    FairIsOneFloor(x, from, to);
    SlippedBounds(Numerator(x, from, to), Denominator(from, to), BPS - slip);
  }

  lemma FairOutputMonotone(x: nat, y: nat, from: Quote, to: Quote, slip: nat)
    requires from.price >= 0 && Priced(to) && slip <= BPS && x <= y
    ensures FairOutput(x, from, to, slip) <= FairOutput(y, from, to, slip)
  {
    FairIsOneFloor(x, from, to);
    FairIsOneFloor(y, from, to);
    MulMonotone(x, y, from.price);
    MulMonotone(x * from.price, y * from.price, Pow10(Max(0, from.expo - to.expo)));
    FloorMonotone(Numerator(x, from, to), Numerator(y, from, to), Denominator(from, to));
    MulMonotone(FairBeforeSlippage(x, from, to), FairBeforeSlippage(y, from, to), BPS - slip);
    FloorMonotone(FairBeforeSlippage(x, from, to) * (BPS - slip), FairBeforeSlippage(y, from, to) * (BPS - slip), BPS);
  }

  lemma FairOutputAntitoneInSlippage(x: nat, from: Quote, to: Quote, low: nat, high: nat)
    requires from.price >= 0 && Priced(to) && low <= high <= BPS
    ensures FairOutput(x, from, to, high) <= FairOutput(x, from, to, low)
  {
    var f := FairBeforeSlippage(x, from, to);
    MulMonotone(BPS - high, BPS - low, f);
    FloorMonotone(f * (BPS - high), f * (BPS - low), BPS);
  }

  // ---- value at oracle mid, in a unit common to several assets ----

  /** Worth of one base unit in units of 10^-scale. */
  function Weight(q: Quote, scale: int): nat
    requires q.price >= 0 && q.expo + scale >= 0
  {
    q.price * Pow10(q.expo + scale)
  }

  /** The exact quotient, cross-multiplied, is the ratio of the two weights. */
  lemma QuotientIsWeightRatio(x: nat, from: Quote, to: Quote, scale: int) returns (u: nat)
    requires from.price >= 0 && Priced(to)
    requires from.expo + scale >= 0 && to.expo + scale >= 0
    ensures u > 0
    ensures x * Weight(from, scale) == Numerator(x, from, to) * u
    ensures Weight(to, scale) == Denominator(from, to) * u
  {
    var shift := from.expo - to.expo;
    if shift >= 0 {
      var p := Pow10(shift);
      u := Pow10(to.expo + scale);
      Pow10Add(shift, to.expo + scale);
      assert Weight(from, scale) == from.price * (p * u);
      assert Numerator(x, from, to) == x * from.price * p;
      MulAssoc(x, from.price, p * u);
      MulAssoc(x * from.price, p, u);
      assert Denominator(from, to) == to.price;
    } else {
      var p := Pow10(-shift);
      u := Pow10(from.expo + scale);
      Pow10Add(-shift, from.expo + scale);
      assert Weight(to, scale) == to.price * (p * u);
      assert Denominator(from, to) == to.price * p;
      MulAssoc(to.price, p, u);
      MulAssoc(x, from.price, u);
      assert Numerator(x, from, to) == x * from.price;
    }
  }

  /** One conversion gives back at most (10000-slip)/10000 of the value it takes. */
  lemma ConversionLosesValue(x: nat, from: Quote, to: Quote, slip: nat, scale: int)
    requires from.price >= 0 && Priced(to) && slip <= BPS
    requires from.expo + scale >= 0 && to.expo + scale >= 0
    ensures FairOutput(x, from, to, slip) * Weight(to, scale) * BPS <= x * Weight(from, scale) * (BPS - slip)
  {
    FairOutputBounds(x, from, to, slip);
    var u := QuotientIsWeightRatio(x, from, to, scale);
    var r, n, d := FairOutput(x, from, to, slip), Numerator(x, from, to), Denominator(from, to);
    MulMonotone(r * BPS * d, n * (BPS - slip), u);
    MulAssoc(r, d, u);
    MulSwap(r * BPS, d, u);
    MulSwap(r * d, u, BPS);
    MulSwap(r, d, BPS);
    MulSwap(n, u, BPS - slip);
    MulSwap(r * BPS, u, d);
    assert r * (d * u) * BPS == r * BPS * d * u;
  }

  // ---- chains of conversions ----

  predicate Chain(path: seq<Quote>, slips: seq<nat>) {
    |path| == |slips| + 1
    && (forall i :: 0 <= i < |path| ==> Priced(path[i]))
    && (forall i :: 0 <= i < |slips| ==> slips[i] <= BPS)
  }

  function Convert(x: nat, path: seq<Quote>, slips: seq<nat>): nat
    requires Chain(path, slips)
    decreases |slips|
  {
    if slips == [] then x
    else Convert(FairOutput(x, path[0], path[1], slips[0]), path[1..], slips[1..])
  }

  /** Along any chain the value at oracle mid never rises, and drops as soon as one hop charges slippage. */
  lemma {:induction false} ChainLosesValue(x: nat, path: seq<Quote>, slips: seq<nat>, scale: int)
    requires Chain(path, slips)
    requires forall i :: 0 <= i < |path| ==> path[i].expo + scale >= 0
    ensures Convert(x, path, slips) * Weight(path[|slips|], scale) <= x * Weight(path[0], scale)
    ensures x > 0 && (exists i :: 0 <= i < |slips| && slips[i] >= 1) ==>
              Convert(x, path, slips) * Weight(path[|slips|], scale) < x * Weight(path[0], scale)
    decreases |slips|
  {
    if slips == [] {
    } else {
      var y := FairOutput(x, path[0], path[1], slips[0]);
      var wf, wt := Weight(path[0], scale), Weight(path[1], scale);
      assert Chain(path[1..], slips[1..]);
      ChainLosesValue(y, path[1..], slips[1..], scale);
      ConversionLosesValue(x, path[0], path[1], slips[0], scale);
      MulMonotone(BPS - slips[0], BPS, x * wf);
      MulCancel(y * wt, x * wf, BPS);
      if x > 0 && exists i :: 0 <= i < |slips| && slips[i] >= 1 {
        assert x * wf > 0;
        if slips[0] >= 1 {
          MulStrict(BPS - slips[0], BPS, x * wf);
          MulCancelStrict(y * wt, x * wf, BPS);
        } else {
          var i :| 0 <= i < |slips| && slips[i] >= 1;
          assert slips[1..][i - 1] >= 1;
        }
      }
    }
  }

  /** A scale at which every weight of the path is an integer. */
  function {:induction false} CommonScale(path: seq<Quote>): (scale: int)
    ensures forall i :: 0 <= i < |path| ==> path[i].expo + scale >= 0
  {
    if path == [] then 0 else
      var rest := CommonScale(path[1..]);
      assert forall i :: 1 <= i < |path| ==> path[i] == path[1..][i - 1];
      Max(rest, -path[0].expo)
  }

  /**
   * No-gain cycles: converting along any chain of assets that returns to its start never yields
   * more than the starting amount, and yields strictly less once any hop charges slippage.
   */
  lemma NoGainCycle(x: nat, path: seq<Quote>, slips: seq<nat>)
    requires Chain(path, slips) && path[|slips|] == path[0]
    ensures Convert(x, path, slips) <= x
    ensures x > 0 && (exists i :: 0 <= i < |slips| && slips[i] >= 1) ==> Convert(x, path, slips) < x
  {
    var scale := CommonScale(path);
    var w := Weight(path[0], scale);
    ChainLosesValue(x, path, slips, scale);
    assert w > 0;
    MulCancel(Convert(x, path, slips), x, w);
    if x > 0 && exists i :: 0 <= i < |slips| && slips[i] >= 1 {
      MulCancelStrict(Convert(x, path, slips), x, w);
    }
  }
}
