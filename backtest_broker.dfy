/**
 * The simpler backtest broker of src/backtest/broker.py: the backtester
 * injects each day's closes, price queries answer from them, and orders
 * still fill at the prices they carry. Inheritance from the mock broker is
 * modelled as composition: the mock broker's account lives in `base`.
 */
module BacktestSimple {
  import opened Models
  import opened Broker

  class BacktestBroker {
    const base: MockBroker
    var currentPricesSnapshot: map<string, real>

    /** Starts with the given cash, no holdings and no closes. */
    constructor (initialCash: real)
      ensures fresh(base)
      ensures base.cash == initialCash && base.holdings == map[]
      ensures currentPricesSnapshot == map[]
    {
      base := new MockBroker(initialCash);
      currentPricesSnapshot := map[];
    }

    /** Injects the day's closes, replacing the previous day's. */
    method SetPrices(prices: map<string, real>)
      modifies this`currentPricesSnapshot
      ensures currentPricesSnapshot == prices
    {
      currentPricesSnapshot := prices;
    }

    /** The close of each requested ticker, 0.0 for a ticker without one. */
    function FetchCurrentPrices(tickers: seq<string>): (r: map<string, real>)
      reads this
      ensures forall t :: t in r <==> t in tickers
      ensures forall t | t in r :: r[t] == PriceOf(currentPricesSnapshot, t)
    {
      PricesFor(currentPricesSnapshot, tickers)
    }

    /**
     * Hands the orders to the mock broker unchanged: fills happen at the
     * orders' own prices and the injected closes play no part.
     */
    method ExecuteOrders(orders: seq<Order>) returns (ok: bool)
      modifies base
      ensures ok
      ensures base.State() == ApplyOrders(old(base.State()), orders)
      ensures base.cash == old(base.cash) + SellNotional(orders) - BuyNotional(orders)
    {
      ok := base.ExecuteOrders(orders);
    }
  }
}
