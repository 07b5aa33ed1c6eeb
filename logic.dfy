/**
 * The decision pipeline (src/core/logic.py): regime classification,
 * volatility-targeted exposure, and the rebalancer that turns a portfolio,
 * an exposure and a regime into a trade signal with per-ticker orders.
 */
module Logic {
  import opened Wrappers
  import opened Models

  // ---------------------------------------------------------------- regime

  /**
   * First-match classification: the circuit breaker, then the two bear
   * votes (negative momentum, price under the 180-day average), then the
   * momentum bands; momentum exactly 0 above the average falls back to BearWeak.
   */
  function Analyze(d: MarketData): (r: MarketRegime)
    ensures r == Crash <==> d.IsRiskCondition()
    ensures r == BearStrong <==> !d.IsRiskCondition() && d.spyMomentum < 0.0 && d.spyPrice < d.spyMa180
    ensures r == BearWeak <==>
      !d.IsRiskCondition() &&
      ((d.spyMomentum < 0.0) != (d.spyPrice < d.spyMa180) || (d.spyMomentum == 0.0 && d.spyPrice >= d.spyMa180))
    ensures r == Bull <==> !d.IsRiskCondition() && d.spyMomentum >= 0.05 && d.spyPrice >= d.spyMa180
    ensures r == Sideways <==> !d.IsRiskCondition() && 0.0 < d.spyMomentum < 0.05 && d.spyPrice >= d.spyMa180
  {
    if d.IsRiskCondition() then Crash
    else
      var isBearMomentum := d.spyMomentum < 0.0;
      var isBelowMa := d.spyPrice < d.spyMa180;
      if isBearMomentum && isBelowMa then BearStrong
      else if isBearMomentum || isBelowMa then BearWeak
      else if d.spyMomentum >= 0.05 then Bull
      else if 0.0 < d.spyMomentum < 0.05 then Sideways
      else BearWeak
  }

  /** The strong-bear fixture: price 400 under an average of 450 with momentum -0.05. */
  lemma AnalyzeBearFixture()
    ensures Analyze(MarketData("2024-05-20", 400.0, 450.0, 0.20, -0.05, -0.10, 25.0)) == BearStrong
    ensures Analyze(MarketData("2024-05-20", 110.0, 100.0, 0.20, -0.01, -0.10, 25.0)) == BearWeak
    ensures Analyze(MarketData("2024-05-20", 500.0, 480.0, 0.10, 0.10, -0.02, 15.0)) == Bull
  {
  }

  // -------------------------------------------------------------- exposure

  /** The annualised volatility the strategy aims for. */
  const TargetVolatility: real := 0.15

  /** Stand-in for a volatility of exactly 0, so that nothing divides by zero. */
  const ZeroVolatilitySubstitute: real := 0.001

  /** The lowest exposure outside a crash. */
  const ExposureFloor: real := 0.2

  /** The highest exposure each regime allows. */
  function RegimeCap(regime: MarketRegime): (r: real)
    ensures ExposureFloor < r <= 1.0
    ensures r < 1.0 <==> regime == BearStrong || regime == BearWeak
  {
    match regime
    case BearStrong => 0.4
    case BearWeak => 0.6
    case _ => 1.0
  }

  /**
   * Exposure = max(min(0.15 / volatility, cap), 0.2), with 0 for a crash and
   * volatility 0 replaced by 0.001.
   */
  function CalculateExposure(regime: MarketRegime, volatility: real): (r: real)
    ensures r == 0.0 <==> regime == Crash
    ensures regime != Crash ==> ExposureFloor <= r <= RegimeCap(regime)
    ensures 0.0 <= r <= 1.0
    ensures regime != Crash && volatility != 0.0 && ExposureFloor <= TargetVolatility / volatility <= RegimeCap(regime)
      ==> r == TargetVolatility / volatility
    ensures regime != Crash && volatility == 0.0 ==> r == RegimeCap(regime)
    ensures regime != Crash && volatility > 0.0 && TargetVolatility / volatility >= RegimeCap(regime) ==> r == RegimeCap(regime)
    ensures regime != Crash && (volatility < 0.0 || volatility >= 0.75) ==> r == ExposureFloor
  {
    if regime == Crash then 0.0
    else
      var v := if volatility == 0.0 then ZeroVolatilitySubstitute else volatility;
      var baseRatio := TargetVolatility / v;
      var exposure := if baseRatio < RegimeCap(regime) then baseRatio else RegimeCap(regime);
      if exposure > ExposureFloor then exposure else ExposureFloor
  }

  /** A calmer market never gets a smaller exposure (for positive volatilities). */
  lemma ExposureAntitone(regime: MarketRegime, v1: real, v2: real)
    requires 0.0 < v1 <= v2
    ensures CalculateExposure(regime, v2) <= CalculateExposure(regime, v1)
  {
    assert TargetVolatility / v2 <= TargetVolatility / v1 by {
      assert TargetVolatility / v2 * v2 == TargetVolatility == TargetVolatility / v1 * v1;
    }
  }

  /** A strong bear at volatility 0.10 would ask for 1.5 but is capped at 0.4. */
  lemma ExposureCapExample()
    ensures CalculateExposure(BearStrong, 0.10) == 0.4
  {
  }

  // ------------------------------------------------------------ rebalancer

  /** How far the A/B split may drift before it is reset to 50/50. */
  function Threshold(regime: MarketRegime): (r: real)
    ensures 0.0 <= r <= 0.15
    ensures r == 0.0 <==> regime == Crash
  {
    match regime
    case Bull => 0.15
    case Sideways => 0.05
    case BearWeak => 0.10
    case BearStrong => 0.10
    case Crash => 0.00
  }

  function Abs(x: real): real {
    if x < 0.0 then -x else x
  }

  /** Python's `int(x)` on a float: truncation toward zero. */
  function Trunc(x: real): (n: int)
    ensures x >= 0.0 ==> 0.0 <= n as real <= x < n as real + 1.0
    ensures x < 0.0 ==> n as real - 1.0 < x <= n as real <= 0.0
  {
    if x >= 0.0 then x.Floor else -((-x).Floor)
  }

  /** The signed change an order asks for: +q for a buy, -q for a sell, 0 otherwise. */
  function SignedQuantity(o: Order): int {
    match o.action
    case Buy => o.quantity
    case Sell => -o.quantity
    case OtherAction(_) => 0
  }

  /** How many shares, fractionally, the holding of `ticker` is short of `target` money: (target − held × price) / price. */
  function SharesShort(p: Portfolio, ticker: string, target: real): real
    requires p.Price(ticker) != 0.0
  {
    (target - Worth(p.Held(ticker), p.Price(ticker))) / p.Price(ticker)
  }

  /** Buying the shortfall, fractionally, makes the holding worth exactly the target. */
  lemma SharesShortFills(p: Portfolio, ticker: string, target: real)
    requires p.Price(ticker) != 0.0
    ensures Worth(p.Held(ticker) + SharesShort(p, ticker, target), p.Price(ticker)) == target
  {
    var price, x := p.Price(ticker), SharesShort(p, ticker, target);
    assert x * price == target - Worth(p.Held(ticker), price);
  }

  /**
   * The order for one ticker towards `target` (money): none for a zero price,
   * otherwise the truncated share difference as a BUY or a SELL, none when it
   * truncates to 0.
   */
  function OrderFor(p: Portfolio, ticker: string, target: real): (r: Option<Order>)
    ensures p.Price(ticker) == 0.0 ==> r == None
    ensures p.Price(ticker) != 0.0 ==>
      var x := SharesShort(p, ticker, target);
      && (r == None <==> -1.0 < x < 1.0)
      && (r.Some? ==> r.value.ticker == ticker && r.value.price == p.Price(ticker) && r.value.quantity > 0)
      && (r.Some? ==> (r.value.action == Buy <==> x >= 1.0) && (r.value.action == Sell <==> x <= -1.0))
      && (r.Some? ==> r.value.quantity as real <= Abs(x))
      && -1.0 < x - (if r.Some? then SignedQuantity(r.value) else 0) as real < 1.0
  {
    var price := p.Price(ticker);
    if price == 0.0 then None
    else
      var qtyDiff := Trunc(SharesShort(p, ticker, target));
      if qtyDiff > 0 then Some(Order(ticker, Buy, qtyDiff, price))
      else if qtyDiff < 0 then Some(Order(ticker, Sell, -qtyDiff, price))
      else None
  }

  /** The orders of one group, in the group's ticker order, each towards the same `target`. */
  function CreateOrders(p: Portfolio, tickers: seq<string>, target: real): (r: seq<Order>)
    ensures |r| <= |tickers|
    ensures forall o | o in r ::
      && o.ticker in tickers
      && o.quantity > 0
      && (o.action == Buy || o.action == Sell)
      && o.price == p.Price(o.ticker) && o.price != 0.0
    decreases |tickers|
  {
    if |tickers| == 0 then []
    else
      var first := OrderFor(p, tickers[0], target);
      (if first.Some? then [first.value] else []) + CreateOrders(p, tickers[1..], target)
  }

  /** Creating orders for two lists in turn is creating them for their concatenation. */
  lemma {:induction false} CreateOrdersAppend(p: Portfolio, a: seq<string>, b: seq<string>, target: real)
    ensures CreateOrders(p, a + b, target) == CreateOrders(p, a, target) + CreateOrders(p, b, target)
    decreases |a|
  {
    if |a| == 0 {
      assert a + b == b;
    } else {
      assert (a + b)[0] == a[0];
      assert (a + b)[1..] == a[1..] + b;
      CreateOrdersAppend(p, a[1..], b, target);
    }
  }

  /** Extending the ticker list by one ticker appends that ticker's order, if any. */
  lemma CreateOrdersSnoc(p: Portfolio, tickers: seq<string>, i: nat, target: real)
    requires i < |tickers|
    ensures CreateOrders(p, tickers[..i + 1], target) == CreateOrders(p, tickers[..i], target) +
      (if OrderFor(p, tickers[i], target).Some? then [OrderFor(p, tickers[i], target).value] else [])
  {
    assert tickers[..i + 1] == tickers[..i] + [tickers[i]];
    CreateOrdersAppend(p, tickers[..i], [tickers[i]], target);
    assert [tickers[i]][1..] == [];
  }

  /**
   * The order-building loop: for each ticker with a non-zero price, the
   * truncated share difference towards `targetAmount` becomes a BUY or a
   * SELL of its absolute value; it computes exactly CreateOrders.
   */
  method BuildOrders(p: Portfolio, tickers: seq<string>, targetAmount: real) returns (orders: seq<Order>)
    ensures orders == CreateOrders(p, tickers, targetAmount)
  {
    orders := [];
    for i := 0 to |tickers|
      invariant orders == CreateOrders(p, tickers[..i], targetAmount)
    {
      CreateOrdersSnoc(p, tickers, i, targetAmount);
      var ticker := tickers[i];
      var price := p.Price(ticker);
      if price == 0.0 {
        assert OrderFor(p, ticker, targetAmount) == None;
        continue;
      }
      var currentQty := p.Held(ticker);
      var currentAmt := Worth(currentQty, price);
      var diffAmt := targetAmount - currentAmt;
      var qtyDiff := Trunc(diffAmt / price);
      assert qtyDiff == Trunc(SharesShort(p, ticker, targetAmount));
      if qtyDiff > 0 {
        assert OrderFor(p, ticker, targetAmount) == Some(Order(ticker, Buy, qtyDiff, price));
        orders := orders + [Order(ticker, Buy, qtyDiff, price)];
      } else if qtyDiff < 0 {
        assert OrderFor(p, ticker, targetAmount) == Some(Order(ticker, Sell, -qtyDiff, price));
        orders := orders + [Order(ticker, Sell, -qtyDiff, price)];
      } else {
        assert OrderFor(p, ticker, targetAmount) == None;
      }
    }
    assert tickers[..|tickers|] == tickers;
  }

  /** The orders for one ticker, in order. */
  function OrdersOf(orders: seq<Order>, t: string): (r: seq<Order>)
    ensures forall o | o in r :: o in orders && o.ticker == t
    ensures forall o | o in orders && o.ticker == t :: o in r
  {
    if |orders| == 0 then []
    else (if orders[0].ticker == t then [orders[0]] else []) + OrdersOf(orders[1..], t)
  }

  /** Σ of the signed quantities of a list of orders. */
  function NetQuantity(orders: seq<Order>): int {
    if |orders| == 0 then 0 else SignedQuantity(orders[0]) + NetQuantity(orders[1..])
  }

  lemma {:induction false} OrdersOfAppend(a: seq<Order>, b: seq<Order>, t: string)
    ensures OrdersOf(a + b, t) == OrdersOf(a, t) + OrdersOf(b, t)
  {
    if |a| == 0 {
      assert a + b == b;
    } else {
      assert (a + b)[0] == a[0];
      assert (a + b)[1..] == a[1..] + b;
      OrdersOfAppend(a[1..], b, t);
    }
  }

  /**
   * Within a group of distinct tickers, a listed ticker gets exactly the one
   * order OrderFor computes (or none), and an unlisted ticker gets none.
   */
  lemma {:induction false} CreateOrdersPerTicker(p: Portfolio, tickers: seq<string>, target: real, t: string)
    requires Distinct(tickers)
    ensures OrdersOf(CreateOrders(p, tickers, target), t) ==
      if t in tickers && OrderFor(p, t, target).Some? then [OrderFor(p, t, target).value] else []
    decreases |tickers|
  {
    if |tickers| > 0 {
      var first := OrderFor(p, tickers[0], target);
      var head := if first.Some? then [first.value] else [];
      OrdersOfAppend(head, CreateOrders(p, tickers[1..], target), t);
      assert Distinct(tickers[1..]);
      CreateOrdersPerTicker(p, tickers[1..], target, t);
      assert OrdersOf(head, t) == if tickers[0] == t then head else [] by {
        if |head| == 1 {
          assert head[1..] == [];
        }
      }
      assert t in tickers <==> t == tickers[0] || t in tickers[1..];
      assert tickers[0] !in tickers[1..];
    }
  }

  /** A group's orders, its target split equally over its tickers; an empty group orders nothing. */
  function GroupOrders(p: Portfolio, tickers: seq<string>, groupTarget: real): (r: seq<Order>)
    ensures |tickers| == 0 ==> r == []
  {
    if |tickers| > 0 then CreateOrders(p, tickers, groupTarget / |tickers| as real) else []
  }

  /** A one-ticker group orders what OrderFor orders for that ticker at the whole group target. */
  lemma SingleTickerGroupOrders(p: Portfolio, t: string, groupTarget: real)
    ensures GroupOrders(p, [t], groupTarget) ==
      if OrderFor(p, t, groupTarget).Some? then [OrderFor(p, t, groupTarget).value] else []
  {
    assert groupTarget / (|[t]| as real) == groupTarget;
    assert [t][1..] == [];
  }

  /** The current relative split of the two risky groups and whether it has drifted too far. */
  datatype Split = Split(ratioA: real, ratioB: real, needsRebalance: bool)

  /**
   * Ratios A/(A+B) and B/(A+B), 50/50 with a forced rebalance when A+B is 0;
   * otherwise the flag is a strict comparison of |ratioA - ratioB| with the threshold.
   */
  function CurrentSplit(valA: real, valB: real, threshold: real): Split {
    var risky := valA + valB;
    if risky == 0.0 then Split(0.5, 0.5, true)
    else
      var ratioA := valA / risky;
      var ratioB := valB / risky;
      Split(ratioA, ratioB, Abs(ratioA - ratioB) > threshold)
  }

  /**
   * The two group values have drifted apart: nothing is invested in them, or
   * their gap exceeds `threshold` times their sum, strictly.
   */
  predicate Drifted(valA: real, valB: real, threshold: real) {
    valA + valB == 0.0 || Abs(valA - valB) > threshold * Abs(valA + valB)
  }

  /**
   * The split's flag: set when the risky value is 0, or when the gap between
   * the group values exceeds the threshold's share of the risky value, strictly.
   */
  lemma CurrentSplitFlag(valA: real, valB: real, threshold: real)
    ensures CurrentSplit(valA, valB, threshold).needsRebalance <==> Drifted(valA, valB, threshold)
  {
    var risky := valA + valB;
    if risky != 0.0 {
      var ratioA, ratioB := valA / risky, valB / risky;
      assert ratioA - ratioB == (valA - valB) / risky;
      assert Abs(ratioA - ratioB) * Abs(risky) == Abs(valA - valB);
    }
  }

  /** The split's ratios are the two groups' shares of the risky value (50/50 when it is 0). */
  lemma CurrentSplitRatios(valA: real, valB: real, threshold: real)
    ensures var s := CurrentSplit(valA, valB, threshold);
      && (valA + valB == 0.0 ==> s.ratioA == 0.5 && s.ratioB == 0.5)
      && s.ratioA + s.ratioB == 1.0
      && (valA + valB != 0.0 ==> s.ratioA * (valA + valB) == valA && s.ratioB * (valA + valB) == valB)
  {
  }

  /** The split the orders aim for: 50/50 when rebalancing, the current one otherwise. */
  function TargetSplit(s: Split): (real, real) {
    if s.needsRebalance then (0.5, 0.5) else (s.ratioA, s.ratioB)
  }

  datatype RebalanceError = MissingGroup(name: string)

  /** The part `ratio` of `amount`. */
  function Portion(amount: real, ratio: real): real {
    amount * ratio
  }

  /** `x` is the part of `amount` in the proportion `part` : `whole`, stated without dividing. */
  predicate InProportion(x: real, amount: real, part: real, whole: real) {
    x * whole == amount * part
  }

  /** `orders` is a run of group-A orders followed by a run of group-B orders. */
  ghost predicate GroupedAThenB(orders: seq<Order>, a: seq<string>, b: seq<string>) {
    exists k :: 0 <= k <= |orders| &&
      (forall o | o in orders[..k] :: o.ticker in a) && (forall o | o in orders[k..] :: o.ticker in b)
  }

  /** The rebalancer, configured with the ticker lists of groups "A" and "B" (other groups are never ordered). */
  datatype Rebalancer = Rebalancer(groups: map<string, seq<string>>) {

    /** The current A/B split of `p` under the regime's threshold. */
    function GroupSplit(p: Portfolio, regime: MarketRegime): Split
      requires "A" in groups && "B" in groups
    {
      CurrentSplit(p.GroupValue(groups["A"]), p.GroupValue(groups["B"]), Threshold(regime))
    }

    /**
     * The money each group aims for: total value × exposure × target ratio.
     * The two targets share out exactly the invested amount, equally after a
     * reset; within the threshold they keep the current proportions, so
     * investing exactly the current risky value targets each group's current value.
     */
    ghost function Targets(p: Portfolio, targetExposure: real, regime: MarketRegime): (r: (real, real))
      requires "A" in groups && "B" in groups
      ensures r.0 + r.1 == p.TotalValue() * targetExposure
      ensures GroupSplit(p, regime).needsRebalance ==> r.0 == r.1
      ensures var valA, valB := p.GroupValue(groups["A"]), p.GroupValue(groups["B"]);
        !GroupSplit(p, regime).needsRebalance ==>
          InProportion(r.0, p.TotalValue() * targetExposure, valA, valA + valB)
          && InProportion(r.1, p.TotalValue() * targetExposure, valB, valA + valB)
      ensures var valA, valB := p.GroupValue(groups["A"]), p.GroupValue(groups["B"]);
        !GroupSplit(p, regime).needsRebalance && p.TotalValue() * targetExposure == valA + valB ==>
          r.0 == valA && r.1 == valB
    {
      var invested := p.TotalValue() * targetExposure;
      var valA, valB := p.GroupValue(groups["A"]), p.GroupValue(groups["B"]);
      var split := GroupSplit(p, regime);
      assert split == CurrentSplit(valA, valB, Threshold(regime));
      InvestedShares(valA, valB, Threshold(regime), invested);
      var ratios := TargetSplit(split);
      (Portion(invested, ratios.0), Portion(invested, ratios.1))
    }

    /** Group A's orders, then group B's, each group towards its target. */
    ghost function Orders(p: Portfolio, targetExposure: real, regime: MarketRegime): (r: seq<Order>)
      requires "A" in groups && "B" in groups
      ensures |r| <= |groups["A"]| + |groups["B"]|
      ensures GroupedAThenB(r, groups["A"], groups["B"])
      ensures forall o | o in r ::
        o.quantity > 0 && (o.action == Buy || o.action == Sell) && o.price == p.Price(o.ticker) && o.price != 0.0
    {
      var targets := Targets(p, targetExposure, regime);
      var ordersA := GroupOrders(p, groups["A"], targets.0);
      var ordersB := GroupOrders(p, groups["B"], targets.1);
      assert (ordersA + ordersB)[..|ordersA|] == ordersA && (ordersA + ordersB)[|ordersA|..] == ordersB;
      ordersA + ordersB
    }

    /** The day's signal; a missing "A" or "B" group is the KeyError the Python code raises. */
    ghost function GenerateSignal(p: Portfolio, targetExposure: real, regime: MarketRegime): (r: Result<TradeSignal, RebalanceError>)
      ensures "A" !in groups ==> r == Failure(MissingGroup("A"))
      ensures "A" in groups && "B" !in groups ==> r == Failure(MissingGroup("B"))
      ensures "A" in groups && "B" in groups ==> r.Success?
      ensures r.Success? ==>
        var a, b := groups["A"], groups["B"];
        var valA, valB := p.GroupValue(a), p.GroupValue(b);
        var s := r.value;
        && s.targetExposure == targetExposure
        && (s.rebalanceNeeded <==> Drifted(valA, valB, Threshold(regime)))
        && (s.reason.ThresholdExceeded? <==> s.rebalanceNeeded)
        && (s.reason.ThresholdExceeded? ==> s.reason.threshold == Threshold(regime))
        && (s.reason.ThresholdExceeded? ==> s.reason.diff == Abs(GroupSplit(p, regime).ratioA - GroupSplit(p, regime).ratioB))
        && |s.orders| <= |a| + |b|
        && GroupedAThenB(s.orders, a, b)
        && (forall o | o in s.orders ::
              o.quantity > 0 && (o.action == Buy || o.action == Sell) && o.price == p.Price(o.ticker) && o.price != 0.0)
    {
      if "A" !in groups then Failure(MissingGroup("A"))
      else if "B" !in groups then Failure(MissingGroup("B"))
      else
        var a, b := groups["A"], groups["B"];
        var threshold := Threshold(regime);
        var split := GroupSplit(p, regime);
        CurrentSplitFlag(p.GroupValue(a), p.GroupValue(b), threshold);
        var reason :=
          if split.needsRebalance then ThresholdExceeded(threshold, Abs(split.ratioA - split.ratioB))
          else WithinThreshold;
        var orders := Orders(p, targetExposure, regime);
        Success(TradeSignal(targetExposure, split.needsRebalance, orders, reason))
    }
  }

  /** The signal's orders are group A's orders followed by group B's, each towards its group target. */
  lemma SignalOrders(rb: Rebalancer, p: Portfolio, e: real, regime: MarketRegime)
    requires "A" in rb.groups && "B" in rb.groups
    ensures var (targetA, targetB) := rb.Targets(p, e, regime);
      rb.GenerateSignal(p, e, regime).value.orders
      == GroupOrders(p, rb.groups["A"], targetA) + GroupOrders(p, rb.groups["B"], targetB)
  {
  }

  /** Within one group of distinct tickers: at most one order per ticker, none for outsiders. */
  lemma GroupOrdersPerTicker(p: Portfolio, g: seq<string>, groupTarget: real, t: string)
    requires Distinct(g)
    ensures OrdersOf(GroupOrders(p, g, groupTarget), t) ==
      if t in g && OrderFor(p, t, groupTarget / |g| as real).Some? then [OrderFor(p, t, groupTarget / |g| as real).value] else []
  {
    if |g| > 0 {
      CreateOrdersPerTicker(p, g, groupTarget / |g| as real, t);
    }
  }

  /**
   * With groups of distinct tickers and no ticker in both, each ticker of a
   * group gets at most one order, and once it is filled at the decision price
   * the holding is less than one share away from the ticker's share of its
   * group target (total value × exposure × target ratio, split equally).
   * Tickers outside both groups get no order.
   */
  lemma SignalOrdersPerTicker(rb: Rebalancer, p: Portfolio, e: real, regime: MarketRegime, t: string)
    requires "A" in rb.groups && "B" in rb.groups
    requires Distinct(rb.groups["A"]) && Distinct(rb.groups["B"])
    requires forall u :: u in rb.groups["A"] ==> u !in rb.groups["B"]
    ensures var s := rb.GenerateSignal(p, e, regime).value;
      var a, b := rb.groups["A"], rb.groups["B"];
      var (targetA, targetB) := rb.Targets(p, e, regime);
      var mine := OrdersOf(s.orders, t);
      && |mine| <= 1
      && (t !in a && t !in b ==> mine == [])
      && (t in a && p.Price(t) != 0.0 ==>
            && -1.0 < SharesShort(p, t, targetA / |a| as real) - NetQuantity(mine) as real < 1.0
            && Abs(NetQuantity(mine) as real) <= Abs(SharesShort(p, t, targetA / |a| as real)))
      && (t in b && p.Price(t) != 0.0 ==>
            && -1.0 < SharesShort(p, t, targetB / |b| as real) - NetQuantity(mine) as real < 1.0
            && Abs(NetQuantity(mine) as real) <= Abs(SharesShort(p, t, targetB / |b| as real)))
  {
    var a, b := rb.groups["A"], rb.groups["B"];
    var targets := rb.Targets(p, e, regime);
    var ordersA, ordersB := GroupOrders(p, a, targets.0), GroupOrders(p, b, targets.1);
    SignalOrders(rb, p, e, regime);
    OrdersOfAppend(ordersA, ordersB, t);
    GroupOrdersPerTicker(p, a, targets.0, t);
    GroupOrdersPerTicker(p, b, targets.1, t);
    var mine := OrdersOf(ordersA, t) + OrdersOf(ordersB, t);
    assert OrdersOf(rb.GenerateSignal(p, e, regime).value.orders, t) == mine;
    if t in a {
      assert OrdersOf(ordersB, t) == [];
      if p.Price(t) != 0.0 {
        OneOrderWithinOneShare(p, t, targets.0 / |a| as real, mine);
      }
    } else if t in b {
      assert OrdersOf(ordersA, t) == [];
      if p.Price(t) != 0.0 {
        OneOrderWithinOneShare(p, t, targets.1 / |b| as real, mine);
      }
    }
  }

  /** Filling the ticker's own order (if any) leaves the holding within one share of the target. */
  lemma OneOrderWithinOneShare(p: Portfolio, t: string, target: real, mine: seq<Order>)
    requires p.Price(t) != 0.0
    requires mine == if OrderFor(p, t, target).Some? then [OrderFor(p, t, target).value] else []
    ensures -1.0 < SharesShort(p, t, target) - NetQuantity(mine) as real < 1.0
    ensures Abs(NetQuantity(mine) as real) <= Abs(SharesShort(p, t, target))
  {
    if |mine| == 1 {
      assert NetQuantity(mine) == SignedQuantity(mine[0]) + NetQuantity([]) by {
        assert mine[1..] == [];
      }
    }
  }

  /** With a target of 0 every order sells the whole (truncated) holding of its ticker. */
  lemma {:induction false} ZeroTargetSellsAll(p: Portfolio, tickers: seq<string>)
    requires AllNonNegative(p.holdings)
    ensures forall o | o in CreateOrders(p, tickers, 0.0) :: o.action == Sell && o.quantity == p.Held(o.ticker).Floor
    decreases |tickers|
  {
    if |tickers| > 0 {
      var t := tickers[0];
      var price := p.Price(t);
      if price != 0.0 {
        assert SharesShort(p, t, 0.0) == -p.Held(t);
      }
      ZeroTargetSellsAll(p, tickers[1..]);
    }
  }

  /**
   * A crash sets the exposure to 0, and there is no early return: the signal
   * then liquidates, every order selling the whole (truncated) holding.
   */
  lemma CrashLiquidates(rb: Rebalancer, p: Portfolio, volatility: real)
    requires "A" in rb.groups && "B" in rb.groups
    requires AllNonNegative(p.holdings)
    ensures var s := rb.GenerateSignal(p, CalculateExposure(Crash, volatility), Crash).value;
      && s.targetExposure == 0.0
      && forall o | o in s.orders :: o.action == Sell && o.quantity == p.Held(o.ticker).Floor
  {
    var a, b := rb.groups["A"], rb.groups["B"];
    var (targetA, targetB) := rb.Targets(p, 0.0, Crash);
    assert targetA == 0.0 && targetB == 0.0;
    SignalOrders(rb, p, 0.0, Crash);
    if |a| > 0 {
      assert 0.0 / |a| as real == 0.0;
      ZeroTargetSellsAll(p, a);
    }
    if |b| > 0 {
      assert 0.0 / |b| as real == 0.0;
      ZeroTargetSellsAll(p, b);
    }
  }

  /**
   * Sharing `invested` by the target split hands out exactly `invested`,
   * equally after a reset; within the threshold the target split is the
   * current one, so each share is in the proportion of the group's current
   * value, and investing exactly the current risky value targets each
   * group's current value.
   */
  lemma InvestedShares(valA: real, valB: real, threshold: real, invested: real)
    ensures var s := CurrentSplit(valA, valB, threshold);
      var r := TargetSplit(s);
      && Portion(invested, r.0) + Portion(invested, r.1) == invested
      && (s.needsRebalance ==> Portion(invested, r.0) == Portion(invested, r.1))
      && (!s.needsRebalance ==>
            InProportion(Portion(invested, r.0), invested, valA, valA + valB)
            && InProportion(Portion(invested, r.1), invested, valB, valA + valB))
      && (!s.needsRebalance && invested == valA + valB ==> Portion(invested, r.0) == valA && Portion(invested, r.1) == valB)
  {
    CurrentSplitRatios(valA, valB, threshold);
    var s := CurrentSplit(valA, valB, threshold);
    var r := TargetSplit(s);
    assert invested * r.0 + invested * r.1 == invested * (r.0 + r.1);
    if !s.needsRebalance {
      assert r.0 * (valA + valB) == valA && r.1 * (valA + valB) == valB;
      assert invested * r.0 * (valA + valB) == invested * (r.0 * (valA + valB));
      assert invested * r.1 * (valA + valB) == invested * (r.1 * (valA + valB));
    }
  }

  /** A holding already worth its target gets no order. */
  lemma AtTargetNoOrder(p: Portfolio, t: string, target: real)
    requires target == Worth(p.Held(t), p.Price(t))
    ensures OrderFor(p, t, target) == None
  {
    if p.Price(t) != 0.0 {
      assert SharesShort(p, t, target) == 0.0;
    }
  }

  /**
   * Idempotence for one ticker per group: a split within the threshold and a
   * risky value already equal to total value × exposure produce no orders.
   */
  lemma BalancedSignalIsIdle(p: Portfolio, ta: string, tb: string, e: real, regime: MarketRegime)
    requires ta != tb
    requires !Rebalancer(map["A" := [ta], "B" := [tb]]).GroupSplit(p, regime).needsRebalance
    requires p.TotalValue() * e == p.GroupValue([ta]) + p.GroupValue([tb])
    ensures Rebalancer(map["A" := [ta], "B" := [tb]]).GenerateSignal(p, e, regime).value.orders == []
  {
    var rb := Rebalancer(map["A" := [ta], "B" := [tb]]);
    var valA, valB := p.GroupValue([ta]), p.GroupValue([tb]);
    assert rb.groups["A"] == [ta] && rb.groups["B"] == [tb];
    var targetA, targetB := rb.Targets(p, e, regime).0, rb.Targets(p, e, regime).1;
    assert valA == Worth(p.Held(ta), p.Price(ta)) + p.GroupValue([]);
    assert valB == Worth(p.Held(tb), p.Price(tb)) + p.GroupValue([]);
    AtTargetNoOrder(p, ta, targetA);
    AtTargetNoOrder(p, tb, targetB);
    SingleTickerGroupOrders(p, ta, targetA);
    SingleTickerGroupOrders(p, tb, targetB);
    SignalOrders(rb, p, e, regime);
  }

  /** The starting account of the initial-buy scenario: 10000 in cash, nothing held, both tickers at 100. */
  function CashOnly(): Portfolio {
    Portfolio(10000.0, map[], map["SSO" := 100.0, "IEF" := 100.0])
  }

  /** Nothing is invested yet, so the split is reset to 50/50 and each group aims for 2000. */
  lemma InitialBuyTargets()
    ensures Rebalancer(map["A" := ["SSO"], "B" := ["IEF"]]).GroupSplit(CashOnly(), BearStrong) == Split(0.5, 0.5, true)
    ensures Rebalancer(map["A" := ["SSO"], "B" := ["IEF"]]).Targets(CashOnly(), 0.4, BearStrong).0 == 2000.0
    ensures Rebalancer(map["A" := ["SSO"], "B" := ["IEF"]]).Targets(CashOnly(), 0.4, BearStrong).1 == 2000.0
  {
    var p := CashOnly();
    var rb := Rebalancer(map["A" := ["SSO"], "B" := ["IEF"]]);
    assert p.TotalValue() == 10000.0;
    assert p.GroupValue(["SSO"]) == 0.0 && p.GroupValue(["IEF"]) == 0.0;
    assert rb.groups["A"] == ["SSO"] && rb.groups["B"] == ["IEF"];
    assert rb.GroupSplit(p, BearStrong) == Split(0.5, 0.5, true);
    assert p.TotalValue() * 0.4 == 4000.0;
  }

  /** 2000 at a price of 100 is a BUY of 20 in each one-ticker group. */
  lemma InitialBuyOrders()
    ensures GroupOrders(CashOnly(), ["SSO"], 2000.0) == [Order("SSO", Buy, 20, 100.0)]
    ensures GroupOrders(CashOnly(), ["IEF"], 2000.0) == [Order("IEF", Buy, 20, 100.0)]
  {
    var p := CashOnly();
    assert Trunc(2000.0 / 100.0) == 20;
    assert SharesShort(p, "SSO", 2000.0) == 20.0 && SharesShort(p, "IEF", 2000.0) == 20.0;
    SingleTickerGroupOrders(p, "SSO", 2000.0);
    SingleTickerGroupOrders(p, "IEF", 2000.0);
  }

  /**
   * 10000 in cash, exposure 0.4 in a strong bear, one ticker per group at 100:
   * 4000 to invest, 2000 per group, so two BUYs of 20 shares.
   */
  lemma InitialBuyExample()
    ensures Rebalancer(map["A" := ["SSO"], "B" := ["IEF"]]).GenerateSignal(CashOnly(), 0.4, BearStrong)
      == Success(TradeSignal(0.4, true, [Order("SSO", Buy, 20, 100.0), Order("IEF", Buy, 20, 100.0)], ThresholdExceeded(0.10, 0.0)))
  {
    var p := CashOnly();
    var rb := Rebalancer(map["A" := ["SSO"], "B" := ["IEF"]]);
    InitialBuyTargets();
    InitialBuyOrders();
    assert rb.groups["A"] == ["SSO"] && rb.groups["B"] == ["IEF"];
    SignalOrders(rb, p, 0.4, BearStrong);
    var r := rb.GenerateSignal(p, 0.4, BearStrong);
    assert r.value.orders == [Order("SSO", Buy, 20, 100.0), Order("IEF", Buy, 20, 100.0)];
    assert r.value.reason == ThresholdExceeded(0.10, Abs(0.5 - 0.5));
  }

  /** Half invested: 10 shares of each ticker at 100 and 2000 in cash, 4000 in all. */
  function HalfInvested(): Portfolio {
    Portfolio(2000.0, map["SSO" := 10.0, "IEF" := 10.0], map["SSO" := 100.0, "IEF" := 100.0])
  }

  /**
   * Raising the exposure to 1.0 inside the threshold keeps the current 50/50
   * split and scales it up: each group aims for half of 4000.
   */
  lemma ExposureRaiseTargets()
    ensures !Rebalancer(map["A" := ["SSO"], "B" := ["IEF"]]).GroupSplit(HalfInvested(), Bull).needsRebalance
    ensures Rebalancer(map["A" := ["SSO"], "B" := ["IEF"]]).Targets(HalfInvested(), 1.0, Bull).0 == 2000.0
    ensures Rebalancer(map["A" := ["SSO"], "B" := ["IEF"]]).Targets(HalfInvested(), 1.0, Bull).1 == 2000.0
  {
    var p := HalfInvested();
    var rb := Rebalancer(map["A" := ["SSO"], "B" := ["IEF"]]);
    TotalValueIsCashPlusGroupValue(p, ["SSO", "IEF"]);
    assert p.TotalValue() == 4000.0;
    assert p.GroupValue(["SSO"]) == 1000.0 && p.GroupValue(["IEF"]) == 1000.0;
    assert rb.groups["A"] == ["SSO"] && rb.groups["B"] == ["IEF"];
    CurrentSplitFlag(1000.0, 1000.0, 0.15);
    assert !rb.GroupSplit(p, Bull).needsRebalance;
    assert p.TotalValue() * 1.0 == 4000.0;
  }

  /** 2000 against a holding worth 1000 at a price of 100 is a BUY of 10 in each one-ticker group. */
  lemma ExposureRaiseOrders()
    ensures GroupOrders(HalfInvested(), ["SSO"], 2000.0) == [Order("SSO", Buy, 10, 100.0)]
    ensures GroupOrders(HalfInvested(), ["IEF"], 2000.0) == [Order("IEF", Buy, 10, 100.0)]
  {
    var p := HalfInvested();
    assert Trunc(1000.0 / 100.0) == 10;
    assert SharesShort(p, "SSO", 2000.0) == 10.0 && SharesShort(p, "IEF", 2000.0) == 10.0;
    SingleTickerGroupOrders(p, "SSO", 2000.0);
    SingleTickerGroupOrders(p, "IEF", 2000.0);
  }
}
