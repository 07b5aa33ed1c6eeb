/**
 * The mock broker (src/infra/broker.py): an account of cash and holdings that
 * applies orders one after another at the orders' own prices. The pure
 * `Account` fold below specifies it; the class `MockBroker` implements it
 * with fields updated in place.
 *
 * `PricesFor` and `FetchedPricesValueGroups` also live here: both backtest
 * brokers derive from the mock broker and share this price lookup in their
 * `FetchCurrentPrices`.
 */
module Broker {
  import opened Wrappers
  import opened Models

  /** The part of the mock broker that orders change. */
  datatype Account = Account(cash: real, holdings: map<string, real>)

  function Max(x: real, y: real): real {
    if x < y then y else x
  }

  /** Money one order moves: `quantity × price`. */
  function Amount(o: Order): real {
    Worth(o.quantity as real, o.price)
  }

  /**
   * One order: a BUY pays its amount and adds its quantity; a SELL receives
   * its amount and lowers the holding, never below 0; any other action does nothing.
   * There is no affordability check: a BUY goes through even when cash goes negative.
   */
  function ApplyOrder(a: Account, o: Order): (r: Account)
    ensures o.action == Buy ==>
      r.cash == a.cash - Amount(o) && o.ticker in r.holdings && r.holdings[o.ticker] == HeldIn(a.holdings, o.ticker) + o.quantity as real
    ensures o.action == Sell ==>
      && r.cash == a.cash + Amount(o)
      && o.ticker in r.holdings
      && r.holdings[o.ticker] >= 0.0
      && r.holdings[o.ticker] == Max(0.0, HeldIn(a.holdings, o.ticker) - o.quantity as real)
    ensures o.action.OtherAction? ==> r == a
    ensures o.action == Buy || o.action == Sell ==> r.holdings.Keys == a.holdings.Keys + {o.ticker}
    ensures forall t | t in a.holdings && t != o.ticker :: t in r.holdings && r.holdings[t] == a.holdings[t]
  {
    var amount := Amount(o);
    match o.action
    case Buy =>
      Account(a.cash - amount, a.holdings[o.ticker := HeldIn(a.holdings, o.ticker) + o.quantity as real])
    case Sell =>
      Account(a.cash + amount, a.holdings[o.ticker := Max(0.0, HeldIn(a.holdings, o.ticker) - o.quantity as real)])
    case OtherAction(_) =>
      a
  }

  /** The orders applied in list order. */
  function ApplyOrders(a: Account, orders: seq<Order>): (r: Account)
    ensures r.cash == a.cash + SellNotional(orders) - BuyNotional(orders)
    decreases |orders|
  {
    if |orders| == 0 then a
    else ApplyOrder(ApplyOrders(a, orders[..|orders| - 1]), orders[|orders| - 1])
  }

  /** Σ quantity × price over the BUY orders. */
  function BuyNotional(orders: seq<Order>): real
    decreases |orders|
  {
    if |orders| == 0 then 0.0
    else
      var last := orders[|orders| - 1];
      BuyNotional(orders[..|orders| - 1]) + (if last.action == Buy then Amount(last) else 0.0)
  }

  /** Σ quantity × price over the SELL orders. */
  function SellNotional(orders: seq<Order>): real
    decreases |orders|
  {
    if |orders| == 0 then 0.0
    else
      var last := orders[|orders| - 1];
      SellNotional(orders[..|orders| - 1]) + (if last.action == Sell then Amount(last) else 0.0)
  }

  /** A ticker that no order names keeps its holding, present or absent. */
  lemma {:induction false} ApplyOrdersUntouched(a: Account, orders: seq<Order>, t: string)
    requires forall i :: 0 <= i < |orders| ==> orders[i].ticker != t
    ensures var r := ApplyOrders(a, orders);
      (t in r.holdings <==> t in a.holdings) && HeldIn(r.holdings, t) == HeldIn(a.holdings, t)
    decreases |orders|
  {
    if |orders| > 0 {
      ApplyOrdersUntouched(a, orders[..|orders| - 1], t);
    }
  }

  /** Holdings stay non-negative as long as no BUY carries a negative quantity. */
  lemma {:induction false} ApplyOrdersNonNegative(a: Account, orders: seq<Order>)
    requires AllNonNegative(a.holdings)
    requires forall i :: 0 <= i < |orders| && orders[i].action == Buy ==> orders[i].quantity >= 0
    ensures AllNonNegative(ApplyOrders(a, orders).holdings)
    decreases |orders|
  {
    if |orders| > 0 {
      ApplyOrdersNonNegative(a, orders[..|orders| - 1]);
    }
  }

  /** Every ticker an order names is held afterwards, unless every order naming it has another action. */
  lemma {:induction false} ApplyOrdersKeys(a: Account, orders: seq<Order>)
    ensures ApplyOrders(a, orders).holdings.Keys ==
      a.holdings.Keys + (set i | 0 <= i < |orders| && (orders[i].action == Buy || orders[i].action == Sell) :: orders[i].ticker)
    decreases |orders|
  {
    if |orders| > 0 {
      var init := orders[..|orders| - 1];
      ApplyOrdersKeys(a, init);
      var last := |orders| - 1;
      assert forall i | 0 <= i < last :: init[i] == orders[i];
    }
  }

  /** The three batch facts together, for the mock broker's contract. */
  lemma ApplyOrdersSummary(a: Account, orders: seq<Order>)
    ensures var r := ApplyOrders(a, orders);
      && r.cash == a.cash + SellNotional(orders) - BuyNotional(orders)
      && (forall t | (forall i :: 0 <= i < |orders| ==> orders[i].ticker != t) ::
            (t in r.holdings <==> t in a.holdings) && HeldIn(r.holdings, t) == HeldIn(a.holdings, t))
      && ((AllNonNegative(a.holdings) && forall i :: 0 <= i < |orders| && orders[i].action == Buy ==> orders[i].quantity >= 0)
          ==> AllNonNegative(r.holdings))
  {
    forall t | (forall i :: 0 <= i < |orders| ==> orders[i].ticker != t)
      ensures var r := ApplyOrders(a, orders);
        (t in r.holdings <==> t in a.holdings) && HeldIn(r.holdings, t) == HeldIn(a.holdings, t)
    {
      ApplyOrdersUntouched(a, orders, t);
    }
    if AllNonNegative(a.holdings) && (forall i :: 0 <= i < |orders| && orders[i].action == Buy ==> orders[i].quantity >= 0) {
      ApplyOrdersNonNegative(a, orders);
    }
  }

  /** Mixed batch: 1000 cash and 10 OLD; BUY 2 NEW at 100, SELL 5 OLD at 10: cash 850, 2 NEW, 5 OLD. */
  lemma MixedOrdersExample()
    ensures ApplyOrders(Account(1000.0, map["OLD" := 10.0]),
                        [Order("NEW", Buy, 2, 100.0), Order("OLD", Sell, 5, 10.0)])
      == Account(850.0, map["OLD" := 5.0, "NEW" := 2.0])
  {
    var orders := [Order("NEW", Buy, 2, 100.0), Order("OLD", Sell, 5, 10.0)];
    assert orders[..1][..0] == [];
    assert ApplyOrders(Account(1000.0, map["OLD" := 10.0]), orders[..1]) == Account(800.0, map["OLD" := 10.0, "NEW" := 2.0]);
  }

  /** Over-sell: holding 5 and selling 10 leaves 0, with the full amount credited. */
  lemma OverSellExample()
    ensures ApplyOrders(Account(0.0, map["SPY" := 5.0]), [Order("SPY", Sell, 10, 100.0)])
      == Account(1000.0, map["SPY" := 0.0])
  {
    assert [Order("SPY", Sell, 10, 100.0)][..0] == [];
  }

  /** No affordability check: 100 in cash still buys 10 at 100, leaving -900. */
  lemma NoAffordabilityCheck()
    ensures ApplyOrders(Account(100.0, map[]), [Order("SPY", Buy, 10, 100.0)])
      == Account(-900.0, map["SPY" := 10.0])
  {
    assert [Order("SPY", Buy, 10, 100.0)][..0] == [];
  }

  /** The local stand-in broker: cash and holdings kept in fields and updated in place. */
  class MockBroker {
    var cash: real
    var holdings: map<string, real>

    /** Starts with the given cash (10000 by default) and holdings (none by default, and none for an empty map). */
    constructor (initialCash: real := 10000.0, initialHoldings: Option<map<string, real>> := None)
      ensures cash == initialCash
      ensures holdings == initialHoldings.GetOr(map[])
    {
      cash := initialCash;
      holdings := if initialHoldings.Some? && initialHoldings.value != map[] then initialHoldings.value else map[];
    }

    /** Cash and holdings as one value. */
    function State(): Account
      reads this
    {
      Account(cash, holdings)
    }

    /**
     * The account with an empty price map, so every holding is valued at 0
     * and the total value is the cash.
     */
    function GetPortfolio(): (p: Portfolio)
      reads this
      ensures p.totalCash == cash && p.holdings == holdings && p.currentPrices == map[]
      ensures p.TotalValue() == cash
    {
      NoPricesTotalIsCash(Portfolio(cash, holdings, map[]));
      Portfolio(cash, holdings, map[])
    }

    /**
     * Applies the orders in list order at their own prices and reports success.
     * The cash moves by the sell notional minus the buy notional, tickers no
     * order names are untouched, and non-negative holdings stay non-negative
     * while no BUY carries a negative quantity.
     */
    method ExecuteOrders(orders: seq<Order>) returns (ok: bool)
      modifies this
      ensures ok
      ensures State() == ApplyOrders(old(State()), orders)
      ensures cash == old(cash) + SellNotional(orders) - BuyNotional(orders)
      ensures forall t | (forall i :: 0 <= i < |orders| ==> orders[i].ticker != t) ::
        (t in holdings <==> t in old(holdings)) && HeldIn(holdings, t) == HeldIn(old(holdings), t)
      ensures (AllNonNegative(old(holdings)) && forall i :: 0 <= i < |orders| && orders[i].action == Buy ==> orders[i].quantity >= 0)
        ==> AllNonNegative(holdings)
    {
      for i := 0 to |orders|
        invariant State() == ApplyOrders(old(State()), orders[..i])
      {
        ghost var before := State();
        var order := orders[i];
        var amount := Amount(order);
        if order.action == Buy {
          cash := cash - amount;
          holdings := holdings[order.ticker := HeldIn(holdings, order.ticker) + order.quantity as real];
        } else if order.action == Sell {
          cash := cash + amount;
          var currentQty := HeldIn(holdings, order.ticker);
          holdings := holdings[order.ticker := Max(0.0, currentQty - order.quantity as real)];
        }
        assert State() == ApplyOrder(before, order);
        assert orders[..i + 1][..i] == orders[..i];
      }
      assert orders[..|orders|] == orders;
      ApplyOrdersSummary(old(State()), orders);
      ok := true;
    }
  }

  /** The day's price for each requested ticker, 0.0 for a ticker without one. */
  function PricesFor(snapshot: map<string, real>, tickers: seq<string>): (r: map<string, real>)
    ensures forall t :: t in r <==> t in tickers
    ensures forall t | t in r :: r[t] == PriceOf(snapshot, t)
  {
    map t | t in tickers :: PriceOf(snapshot, t)
  }

  /**
   * Fetching the prices of the requested tickers is enough to value any
   * group made of requested tickers: the value is the one under the full snapshot.
   */
  lemma {:induction false} FetchedPricesValueGroups(cash: real, holdings: map<string, real>,
                                                    snapshot: map<string, real>, requested: seq<string>, group: seq<string>)
    requires forall t | t in group :: t in requested
    ensures Portfolio(cash, holdings, PricesFor(snapshot, requested)).GroupValue(group)
      == Portfolio(cash, holdings, snapshot).GroupValue(group)
  {
    var p, q := Portfolio(cash, holdings, PricesFor(snapshot, requested)), Portfolio(cash, holdings, snapshot);
    forall i | 0 <= i < |group| ensures p.Held(group[i]) == q.Held(group[i]) && p.Price(group[i]) == q.Price(group[i]) {
      assert group[i] in group;
    }
    GroupValueFrame(p, q, group);
  }
}
