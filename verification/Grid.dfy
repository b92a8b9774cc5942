/**
 * The grid bot: buy the base when its price falls a step below the last fill, sell when it rises
 * a step above it. The reference price survives between ticks in the bot's document.
 */
module Grid {
  import opened Wrappers
  import opened Arithmetic
  import opened Pricing

  datatype Move = Buy | Sell | Hold

  function Step(last: int, stepBps: int): int {
    TruncDiv(last * stepBps, BPS)
  }

  /** Without a stored reference the observed price is its own reference. */
  function Reference(state: Option<int>, cur: int): int {
    state.GetOr(cur)
  }

  function Decide(state: Option<int>, cur: int, stepBps: int): Move {
    var last := Reference(state, cur);
    var step := Step(last, stepBps);
    if cur <= last - step then Buy else if cur >= last + step then Sell else Hold
  }

  function NextReference(state: Option<int>, cur: int, stepBps: int): int {
    if Decide(state, cur, stepBps).Hold? then Reference(state, cur) else cur
  }

  /** One tick as seen from outside: the price read, the configured step, and whether the pass ran to its end. */
  datatype Observation = Observation(price: int, stepBps: int, completed: bool)

  /** A tick that aborts in its swap leaves the stored reference alone. */
  function After(state: Option<int>, o: Observation): Option<int> {
    if o.completed then Some(NextReference(state, o.price, o.stepBps)) else state
  }

  /** Step in force when a tick fills; a tick that holds or aborts contributes nothing. */
  function FilledStep(state: Option<int>, o: Observation): int {
    if o.completed && !Decide(state, o.price, o.stepBps).Hold?
    then Step(Reference(state, o.price), o.stepBps)
    else 0
  }

  function Stored(state: Option<int>, run: seq<Observation>): Option<int>
    decreases run
  {
    if run == [] then state else Stored(After(state, run[0]), run[1..])
  }

  function SumOfFilledSteps(state: Option<int>, run: seq<Observation>): int
    decreases run
  {
    if run == [] then 0
    else FilledStep(state, run[0]) + SumOfFilledSteps(After(state, run[0]), run[1..])
  }

  /** Total variation of the observed prices. */
  function Variation(run: seq<Observation>): nat {
    if |run| <= 1 then 0 else Distance(run[0].price, run[1].price) + Variation(run[1..])
  }

  /** A fill means that the price left the reference by at least the step. */
  lemma FillIsAMove(state: Option<int>, o: Observation)
    ensures FilledStep(state, o) <= Distance(Reference(state, o.price), o.price)
  {}

  /** At positive prices the reference stays positive and no step is negative. */
  lemma PositiveStep(state: Option<int>, o: Observation)
    requires o.price > 0 && o.stepBps >= 0 && (state.Some? ==> state.value > 0)
    ensures After(state, o).Some? ==> After(state, o).value > 0
    ensures 0 <= Step(Reference(state, o.price), o.stepBps)
  {
    FloorAtLeast(Reference(state, o.price) * o.stepBps, BPS, 0);
  }

  /** With a reference already stored, the distance from it to the first price is also available. */
  lemma {:induction false} FillsWithinVariationFrom(last: int, run: seq<Observation>)
    requires run != []
    ensures SumOfFilledSteps(Some(last), run) <= Distance(last, run[0].price) + Variation(run)
    decreases |run|
  {
    var o, rest := run[0], run[1..];
    FillIsAMove(Some(last), o);
    if rest == [] {
    } else {
      var next := After(Some(last), o);
      FillsWithinVariationFrom(next.value, rest);
      assert rest[0] == run[1];
    }
  }

  /**
   * From a bot without stored state, the steps in force at the fills of any price history add up
   * to at most the total variation of the prices observed, whatever ticks abort and however the
   * step is reconfigured.
   */
  lemma {:induction false} FillsWithinVariation(run: seq<Observation>)
    ensures SumOfFilledSteps(None, run) <= Variation(run)
    decreases |run|
  {
    if run == [] {
    } else {
      var o, rest := run[0], run[1..];
      if rest != [] {
        if o.completed {
          assert After(None, o) == Some(o.price);
          FillsWithinVariationFrom(o.price, rest);
        } else {
          FillsWithinVariation(rest);
        }
        assert rest[0] == run[1];
      }
      FillIsAMove(None, o);
    }
  }

  /** The stored reference is always a price observed by some earlier completed tick. */
  lemma {:induction false} ReferenceWasObserved(state: Option<int>, run: seq<Observation>)
    ensures var end := Stored(state, run);
            end == state
            || exists i :: 0 <= i < |run| && run[i].completed && end == Some(run[i].price)
    decreases |run|
  {
    if run == [] {
    } else {
      var next := After(state, run[0]);
      ReferenceWasObserved(next, run[1..]);
      var end := Stored(state, run);
      if end == next {
        if next != state {
          assert run[0].completed && end == Some(run[0].price);
        }
      } else {
        var i :| 0 <= i < |run| - 1 && run[1..][i].completed && end == Some(run[1..][i].price);
        assert run[i + 1] == run[1..][i];
      }
    }
  }

  /** The first tick of a bot fills exactly when its step rounds to nothing or is negative. */
  lemma FirstTickFills(cur: int, stepBps: int)
    ensures Decide(None, cur, stepBps) == (if Step(cur, stepBps) <= 0 then Buy else Hold)
    ensures cur >= 0 && stepBps >= 0 ==> (Decide(None, cur, stepBps).Hold? <==> cur * stepBps >= BPS)
  {
    if cur >= 0 && stepBps >= 0 {
      FloorBounds(cur * stepBps, BPS);
    }
  }

  /** With a positive step the grid holds exactly while the price is within a step of its reference. */
  lemma HoldsWithinStep(state: Option<int>, cur: int, stepBps: int)
    requires Step(Reference(state, cur), stepBps) > 0
    ensures var last, step := Reference(state, cur), Step(Reference(state, cur), stepBps);
            && (Decide(state, cur, stepBps).Hold? <==> Distance(last, cur) < step)
            && (Decide(state, cur, stepBps).Buy? ==> cur < last)
            && (Decide(state, cur, stepBps).Sell? ==> cur > last)
            && (NextReference(state, cur, stepBps) == last || Distance(last, cur) >= step)
  {}

  /**
   * The decision by the prices alone: the grid buys when the fall since the last fill, and sells when the
   * rise, exceeds stepBps basis points of it, to within one price unit.
   */
  lemma DecideByPrices(last: int, cur: int, stepBps: int)
    requires last >= 0 && stepBps >= 0
    ensures Decide(Some(last), cur, stepBps)
            == if (last - cur + 1) * BPS > last * stepBps then Buy
               else if (cur - last + 1) * BPS > last * stepBps then Sell
               else Hold
  {
    FloorAtLeastIff(last * stepBps, BPS, last - cur + 1);
    FloorAtLeastIff(last * stepBps, BPS, cur - last + 1);
  }

  /** A bot without a stored price measures from the price it sees, and a fill stores that price. */
  lemma ReferenceMoves(state: Option<int>, o: Observation)
    requires o.completed
    ensures After(state, o)
            == Some(if Decide(Some(state.GetOr(o.price)), o.price, o.stepBps).Hold? then state.GetOr(o.price)
                    else o.price)
  {}
}
