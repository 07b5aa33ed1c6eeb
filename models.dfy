/**
 * Value types of the allocation engine (src/core/models.py): the market
 * regime, the daily market snapshot with its circuit breaker, the account
 * snapshot with its valuations, and the order / signal / execution records.
 *
 * Prices, cash and quantities held are Python floats; they are modelled as
 * `real`, so there is no rounding anywhere in this model.
 */
module Models {

  /** The five market regimes. */
  datatype MarketRegime = Bull | BearWeak | BearStrong | Sideways | Crash

  /** Today's market indicators for the benchmark (SPY) and the VIX. */
  datatype MarketData = MarketData(
    date: string,
    spyPrice: real,
    spyMa180: real,
    spyVolatility: real,
    spyMomentum: real,
    spyMdd: real,
    vix: real)
  {
    /** The circuit breaker: a drawdown deeper than 20% or a VIX above 30, both strict. */
    predicate IsRiskCondition() {
      spyMdd < -0.20 || vix > 30.0
    }
  }

  /** The circuit breaker trips on exactly the two open half-lines, never on their boundary. */
  lemma RiskConditionExact(d: MarketData)
    ensures d.spyMdd == -0.20 && d.vix == 30.0 ==> !d.IsRiskCondition()
    ensures d.spyMdd >= -0.20 && d.vix <= 30.0 ==> !d.IsRiskCondition()
  {
  }

  /** A worse drawdown or a higher VIX never clears a tripped breaker. */
  lemma RiskConditionMonotone(d: MarketData, e: MarketData)
    requires d.IsRiskCondition()
    requires e.spyMdd <= d.spyMdd && e.vix >= d.vix
    ensures e.IsRiskCondition()
  {
  }

  /** A missing price is worth 0. */
  function PriceOf(prices: map<string, real>, t: string): real {
    if t in prices then prices[t] else 0.0
  }

  /** Quantity held, 0 when the ticker is not held. */
  function HeldIn(holdings: map<string, real>, t: string): real {
    if t in holdings then holdings[t] else 0.0
  }

  predicate Distinct(ts: seq<string>) {
    forall i, j :: 0 <= i < j < |ts| ==> ts[i] != ts[j]
  }

  predicate AllNonNegative(m: map<string, real>) {
    forall t :: t in m ==> m[t] >= 0.0
  }

  /** Some key of a non-empty set; which one does not matter for a sum. */
  ghost function AnyKey(s: set<string>): (t: string)
    requires s != {}
    ensures t in s
  {
    var t :| t in s; t
  }

  /**
   * Σ over the held tickers of quantity × price, a missing price counting 0.
   * A dictionary has no order that matters to a sum of reals, so the sum peels
   * off an arbitrary key; HoldingsValueRemove shows the choice is irrelevant.
   */
  ghost function HoldingsValue(h: map<string, real>, prices: map<string, real>): (v: real)
    ensures h == map[] ==> v == 0.0
    ensures AllNonNegative(h) && AllNonNegative(prices) ==> v >= 0.0
    decreases |h|
  {
    if h.Keys == {} then 0.0
    else
      var t := AnyKey(h.Keys);
      assert (h - {t}).Keys == h.Keys - {t};
      Worth(h[t], PriceOf(prices, t)) + HoldingsValue(h - {t}, prices)
  }

  /** The value of `q` units at `price`. */
  function Worth(q: real, price: real): real {
    q * price
  }

  /** The holdings sum may peel off any held ticker first: the sum does not depend on order. */
  lemma {:induction false} HoldingsValueRemove(h: map<string, real>, prices: map<string, real>, k: string)
    requires k in h
    ensures HoldingsValue(h, prices) == Worth(h[k], PriceOf(prices, k)) + HoldingsValue(h - {k}, prices)
    decreases |h|
  {
    var t := AnyKey(h.Keys);
    if t != k {
      var ht, hk := h - {t}, h - {k};
      assert ht.Keys == h.Keys - {t} && hk.Keys == h.Keys - {k};
      assert k in ht && ht[k] == h[k];
      assert t in hk && hk[t] == h[t];
      HoldingsValueRemove(ht, prices, k);
      HoldingsValueRemove(hk, prices, t);
      assert ht - {k} == hk - {t};
    }
  }

  /** Only the prices of held tickers enter the holdings sum. */
  lemma {:induction false} HoldingsValuePriceFrame(h: map<string, real>, p1: map<string, real>, p2: map<string, real>)
    requires forall t :: t in h ==> PriceOf(p1, t) == PriceOf(p2, t)
    ensures HoldingsValue(h, p1) == HoldingsValue(h, p2)
    decreases |h|
  {
    if h.Keys != {} {
      var t := AnyKey(h.Keys);
      assert (h - {t}).Keys == h.Keys - {t};
      HoldingsValuePriceFrame(h - {t}, p1, p2);
    }
  }

  /** The account as the broker reports it. */
  datatype Portfolio = Portfolio(
    totalCash: real,
    holdings: map<string, real>,
    currentPrices: map<string, real>)
  {
    function Held(t: string): real {
      HeldIn(holdings, t)
    }

    /** Current price, 0 when none is known. */
    function Price(t: string): real {
      PriceOf(currentPrices, t)
    }

    /** Cash plus the value of every holding. */
    ghost function TotalValue(): (v: real)
      ensures holdings == map[] ==> v == totalCash
      ensures AllNonNegative(holdings) && AllNonNegative(currentPrices) ==> v >= totalCash
    {
      totalCash + HoldingsValue(holdings, currentPrices)
    }

    /**
     * Σ over the listed tickers (a list: a repeated ticker counts twice) of
     * quantity held × price, either missing counting 0.
     */
    function GroupValue(tickers: seq<string>): (v: real)
      ensures (forall i :: 0 <= i < |tickers| ==> tickers[i] !in holdings || Price(tickers[i]) == 0.0) ==> v == 0.0
      ensures AllNonNegative(holdings) && AllNonNegative(currentPrices) ==> v >= 0.0
    {
      if |tickers| == 0 then 0.0
      else Worth(Held(tickers[0]), Price(tickers[0])) + GroupValue(tickers[1..])
    }
  }

  /** A group's value is additive over concatenation of ticker lists. */
  lemma {:induction false} GroupValueAppend(p: Portfolio, a: seq<string>, b: seq<string>)
    ensures p.GroupValue(a + b) == p.GroupValue(a) + p.GroupValue(b)
  {
    if |a| > 0 {
      assert (a + b)[0] == a[0];
      assert (a + b)[1..] == a[1..] + b;
      GroupValueAppend(p, a[1..], b);
    } else {
      assert a + b == b;
    }
  }

  /** A group's value reads only the holdings and prices of its own tickers. */
  lemma {:induction false} GroupValueFrame(p: Portfolio, q: Portfolio, ts: seq<string>)
    requires forall i :: 0 <= i < |ts| ==> p.Held(ts[i]) == q.Held(ts[i]) && p.Price(ts[i]) == q.Price(ts[i])
    ensures p.GroupValue(ts) == q.GroupValue(ts)
  {
    if |ts| > 0 {
      GroupValueFrame(p, q, ts[1..]);
    }
  }

  /** Dropping the head of a list of distinct keys lists the map without that key. */
  lemma DistinctTail(ts: seq<string>, h: map<string, real>)
    requires |ts| > 0 && Distinct(ts)
    requires forall t :: t in ts <==> t in h
    ensures Distinct(ts[1..])
    ensures forall u :: u in ts[1..] <==> u in h - {ts[0]}
  {
    forall u ensures u in ts[1..] <==> u in h - {ts[0]} {
      if u in h - {ts[0]} {
        var i :| 0 <= i < |ts| && ts[i] == u;
        assert i > 0 && ts[1..][i - 1] == u;
      }
      if u in ts[1..] {
        var i :| 0 <= i < |ts[1..]| && ts[1..][i] == u;
        assert ts[i + 1] == u;
      }
    }
  }

  /**
   * The total value is the cash plus the group value of the held tickers,
   * each listed once.
   */
  lemma {:induction false} TotalValueIsCashPlusGroupValue(p: Portfolio, ts: seq<string>)
    requires Distinct(ts)
    requires forall t :: t in ts <==> t in p.holdings
    ensures p.TotalValue() == p.totalCash + p.GroupValue(ts)
    decreases |ts|
  {
    if |ts| == 0 {
      assert p.holdings.Keys == {};
    } else {
      var t := ts[0];
      assert t in p.holdings.Keys;
      var q := p.(holdings := p.holdings - {t});
      HoldingsValueRemove(p.holdings, p.currentPrices, t);
      var rest := ts[1..];
      DistinctTail(ts, p.holdings);
      TotalValueIsCashPlusGroupValue(q, rest);
      forall i | 0 <= i < |rest| ensures p.Held(rest[i]) == q.Held(rest[i]) && p.Price(rest[i]) == q.Price(rest[i]) {
        assert rest[i] == ts[i + 1];
      }
      GroupValueFrame(p, q, rest);
    }
  }

  /** A price for a ticker that is not held does not change the total value. */
  lemma UnheldPriceIgnored(p: Portfolio, t: string, x: real)
    requires t !in p.holdings
    ensures p.(currentPrices := p.currentPrices[t := x]).TotalValue() == p.TotalValue()
  {
    HoldingsValuePriceFrame(p.holdings, p.currentPrices[t := x], p.currentPrices);
  }

  /** With no prices at all, every holding is worth 0 and the total value is the cash. */
  lemma NoPricesTotalIsCash(p: Portfolio)
    requires p.currentPrices == map[]
    ensures p.TotalValue() == p.totalCash
  {
    NoPricesHoldingsWorthless(p.holdings);
  }

  lemma {:induction false} NoPricesHoldingsWorthless(h: map<string, real>)
    ensures HoldingsValue(h, map[]) == 0.0
    decreases |h|
  {
    if h.Keys != {} {
      var t := AnyKey(h.Keys);
      assert (h - {t}).Keys == h.Keys - {t};
      NoPricesHoldingsWorthless(h - {t});
    }
  }

  /** Cash 1000 with 10 A at 100 and 5 B at 200: total 3000, group [A] 1000, unknown [C] 0. */
  lemma PortfolioScenario()
    ensures var p := Portfolio(1000.0, map["A" := 10.0, "B" := 5.0], map["A" := 100.0, "B" := 200.0]);
      p.TotalValue() == 3000.0 && p.GroupValue(["A"]) == 1000.0 && p.GroupValue(["C"]) == 0.0
  {
    var p := Portfolio(1000.0, map["A" := 10.0, "B" := 5.0], map["A" := 100.0, "B" := 200.0]);
    TotalValueIsCashPlusGroupValue(p, ["A", "B"]);
  }

  /** The order side; anything but "BUY" or "SELL" is kept as its label. */
  datatype Action = Buy | Sell | OtherAction(name: string)

  /** An order: `price` is the price the decision layer expected. */
  datatype Order = Order(ticker: string, action: Action, quantity: int, price: real)

  /** Why the rebalancer chose its target split. */
  datatype SignalReason = ThresholdExceeded(threshold: real, diff: real) | WithinThreshold

  /** The strategy's decision for one day. */
  datatype TradeSignal = TradeSignal(
    targetExposure: real,
    rebalanceNeeded: bool,
    orders: seq<Order>,
    reason: SignalReason)

  /** A fill receipt; nothing in this model produces one. */
  datatype TradeExecution = TradeExecution(
    ticker: string,
    action: Action,
    quantity: int,
    price: real,
    fee: real,
    date: string,
    status: string,
    reason: string := "")
}
