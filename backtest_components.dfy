/**
 * The backtest broker of src/backtest/components.py: a mock broker whose
 * fills happen at the closing prices the backtester injects each day rather
 * than at the prices the orders carry. Inheritance from the mock broker is
 * modelled as composition: the mock broker's account lives in `base`.
 */
module BacktestComponents {
  import opened Models
  import opened Broker

  /** The order priced at the day's close when the close is known, at its own price otherwise. */
  function Repriced(o: Order, prices: map<string, real>): (r: Order)
    ensures r.ticker == o.ticker && r.action == o.action && r.quantity == o.quantity
    ensures o.ticker in prices ==> r.price == prices[o.ticker]
    ensures o.ticker !in prices ==> r == o
  {
    o.(price := if o.ticker in prices then prices[o.ticker] else o.price)
  }

  /** Every order repriced, in the same order. */
  function RepricedAll(orders: seq<Order>, prices: map<string, real>): (r: seq<Order>)
    ensures |r| == |orders|
    ensures forall i :: 0 <= i < |orders| ==> r[i] == Repriced(orders[i], prices)
  {
    seq(|orders|, i requires 0 <= i < |orders| => Repriced(orders[i], prices))
  }

  /**
   * Rewrites each order's price to the day's close for its ticker, leaving
   * the price of a ticker without a close as it was; ticker, action,
   * quantity and list order are kept.
   */
  method RepriceOrders(orders: seq<Order>, prices: map<string, real>) returns (updated: seq<Order>)
    ensures updated == RepricedAll(orders, prices)
    ensures |updated| == |orders|
    ensures forall i :: 0 <= i < |orders| ==>
      && updated[i].ticker == orders[i].ticker
      && updated[i].action == orders[i].action
      && updated[i].quantity == orders[i].quantity
      && updated[i].price == (if orders[i].ticker in prices then prices[orders[i].ticker] else orders[i].price)
  {
    updated := [];
    for i := 0 to |orders|
      invariant |updated| == i
      invariant forall j :: 0 <= j < i ==> updated[j] == Repriced(orders[j], prices)
    {
      var order := orders[i];
      var realPrice := if order.ticker in prices then prices[order.ticker] else order.price;
      updated := updated + [order.(price := realPrice)];
    }
  }

  /** Repricing twice with the same closes is repricing once. */
  lemma RepriceIdempotent(orders: seq<Order>, prices: map<string, real>)
    ensures RepricedAll(RepricedAll(orders, prices), prices) == RepricedAll(orders, prices)
  {
  }

  /**
   * Executing repriced orders moves cash by the notional at the closing
   * prices: for a ticker with a close, what the order carried plays no part.
   */
  lemma {:induction false} RepricedNotional(orders: seq<Order>, other: seq<Order>, prices: map<string, real>)
    requires |orders| == |other|
    requires forall i :: 0 <= i < |orders| ==>
      && orders[i].ticker == other[i].ticker && orders[i].ticker in prices
      && orders[i].action == other[i].action && orders[i].quantity == other[i].quantity
    ensures BuyNotional(RepricedAll(orders, prices)) == BuyNotional(RepricedAll(other, prices))
    ensures SellNotional(RepricedAll(orders, prices)) == SellNotional(RepricedAll(other, prices))
    decreases |orders|
  {
    if |orders| > 0 {
      var n := |orders| - 1;
      RepricedNotional(orders[..n], other[..n], prices);
      assert RepricedAll(orders, prices)[..n] == RepricedAll(orders[..n], prices);
      assert RepricedAll(other, prices)[..n] == RepricedAll(other[..n], prices);
      assert RepricedAll(orders, prices)[n] == RepricedAll(other, prices)[n];
    }
  }

  /** A backtest broker: the mock broker's account plus the day's injected closes. */
  class BacktestBroker {
    const base: MockBroker
    var simulationPrices: map<string, real>

    /** Starts with the given cash, no holdings and no closes. */
    constructor (initialCash: real)
      ensures fresh(base)
      ensures base.cash == initialCash && base.holdings == map[]
      ensures simulationPrices == map[]
    {
      base := new MockBroker(initialCash);
      simulationPrices := map[];
    }

    /** Injects the day's closes, replacing the previous day's. */
    method SetPrices(prices: map<string, real>)
      modifies this`simulationPrices
      ensures simulationPrices == prices
    {
      simulationPrices := prices;
    }

    /** The close of each requested ticker, 0.0 for a ticker without one. */
    function FetchCurrentPrices(tickers: seq<string>): (r: map<string, real>)
      reads this
      ensures forall t :: t in r <==> t in tickers
      ensures forall t | t in r :: r[t] == PriceOf(simulationPrices, t)
    {
      PricesFor(simulationPrices, tickers)
    }

    /**
     * Fills every order at the day's close (at its own price for a ticker
     * without one) through the mock broker, and reports success.
     */
    method ExecuteOrders(orders: seq<Order>) returns (ok: bool)
      modifies base
      ensures ok
      ensures base.State() == ApplyOrders(old(base.State()), RepricedAll(orders, simulationPrices))
      ensures base.cash == old(base.cash)
        + SellNotional(RepricedAll(orders, simulationPrices)) - BuyNotional(RepricedAll(orders, simulationPrices))
    {
      var updatedOrders := RepriceOrders(orders, simulationPrices);
      ok := base.ExecuteOrders(updatedOrders);
    }
  }

  /** A BUY of 10 at an expected 150 fills at the injected close of 200: 10000 cash becomes 8000. */
  lemma InjectedPriceExample()
    ensures ApplyOrders(Account(10000.0, map[]), RepricedAll([Order("SPY", Buy, 10, 150.0)], map["SPY" := 200.0]))
      == Account(8000.0, map["SPY" := 10.0])
  {
    var repriced := RepricedAll([Order("SPY", Buy, 10, 150.0)], map["SPY" := 200.0]);
    assert repriced == [Order("SPY", Buy, 10, 200.0)];
    assert repriced[..0] == [];
  }
}
