# Regime-driven allocation engine — a Dafny model

This project models the decision core of a small trading bot and the brokers
it trades through. Each day the bot does four things:

- it classifies the market into one of five regimes (BULL, SIDEWAYS,
  BEAR_WEAK, BEAR_STRONG, CRASH) from SPY indicators and the VIX;
- it turns the regime and the market's volatility into a target exposure
  (volatility targeting at 15%, capped per regime, floored at 0.2, and 0 in a crash);
- it compares the current split between the two risky asset groups "A" and
  "B" with a regime-dependent threshold, and produces a trade signal whose
  orders move every ticker of each group towards an equal share of the
  group's target;
- it hands the orders to a broker.

The model covers three brokers: the in-memory mock broker and the two backtest
brokers built on it, one of which fills at injected closing prices.

Files:

- `wrappers.dfy`: the `Option` and `Result` datatypes.
- `models.dfy` (`src/core/models.py`):
  - the regime, market data and its circuit breaker;
  - the portfolio with its total and group valuations;
  - the order, signal and execution records.
- `logic.dfy` (`src/core/logic.py`):
  - regime analysis and exposure;
  - the rebalancer, specified by pure functions;
  - `BuildOrders`, the order-building loop, proved equal to its specification.
- `broker.dfy` (`src/infra/broker.py`):
  - the pure `Account` fold `ApplyOrders`, which specifies the mock broker;
  - the `MockBroker` class, whose `cash` and `holdings` fields its order loop updates in place.
- `backtest_components.dfy` (`src/backtest/components.py`): the backtest broker that reprices each order to the day's close before delegating to the mock broker.
- `backtest_broker.dfy` (`src/backtest/broker.py`): the simpler backtest broker, which delegates orders unchanged.

Modelling choices:

- **Numbers.** Python floats are `real`, so nothing is rounded. `int()` on a float is truncation toward zero (`Logic.Trunc`).
- **Dictionary sums.** A sum over a dictionary (`Portfolio.total_value`) is a ghost sum that peels off an arbitrary key. `Models.HoldingsValueRemove` proves that the order does not matter. As a consequence, the total value and everything built on it (targets, the signal) are ghost functions.
- **Inheritance.** The backtest brokers inherit from the mock broker in the source. Here they hold one as `base`.
- **Missing groups.** A missing "A" or "B" group, which raises `KeyError` in the source, is a `Failure(MissingGroup(...))`.
- **Order actions.** The action string is `Buy`, `Sell` or `OtherAction(name)`.
- **Signal reason.** The formatted reason string is `ThresholdExceeded(threshold, diff)` or `WithinThreshold`.

Where the code and its tests or docstrings disagree, the model follows the code:

- **Circuit breaker.** It is strict on both sides (`mdd < -0.20`, `vix > 30`), although its docstring reads "-20% or lower / 30 or higher".
- **Crash.** There is no early return on CRASH. The signal is generated with exposure 0 and liquidates (`Logic.CrashLiquidates`).
- **`rebalance_needed`.** It is the threshold flag, not "there are orders".
- **`_create_orders`.** It skips only tickers whose price is exactly 0.
- **Mock broker fills.**
  - It fills at the order's price, with no slippage, fee or safety margin.
  - It applies no sell-before-buy reordering.
  - A SELL of more than is held credits the full quantity × price and only clamps the holding at 0 (`src/infra/broker.py:37-39`); `Broker.ApplyOrder` states both and `Broker.OverSellExample` shows 1000 credited for 5 shares held.
  - It has no affordability check: `Broker.NoAffordabilityCheck` shows cash going negative.
  - It returns `True`, not a list of executions. The tests in `tests/test_infra_broker.py` and `tests/test_backtest_components.py:62-67` expect otherwise.
- **Injected prices.** The components backtest broker fills a BUY of 10 at an injected 200 for exactly 2000 (`BacktestComponents.InjectedPriceExample`).

## Model

| member | source | states |
|---|---|---|
| Models.RiskConditionExact | src/core/models.py:23-25 | both comparisons are strict: a drawdown of exactly -0.20 with a VIX of exactly 30 does not trip the breaker, nor does anything at or inside those bounds |
| Models.RiskConditionMonotone | src/core/models.py:23-25 | a deeper drawdown or a higher VIX never clears a tripped breaker |
| Models.HoldingsValue | src/core/models.py:36 | empty holdings are worth 0; non-negative quantities at non-negative prices are worth at least 0 |
| Models.Portfolio.TotalValue | src/core/models.py:34-37 | with no holdings the total value is the cash; with non-negative holdings and prices it is at least the cash |
| Models.HoldingsValueRemove | src/core/models.py:34-37 | the holdings sum may take any held ticker first: the total does not depend on dictionary order |
| Models.HoldingsValuePriceFrame | src/core/models.py:34-37 | only the prices of held tickers enter the total value |
| Models.Portfolio.GroupValue | src/core/models.py:39-41 | a group none of whose tickers is both held and priced is worth 0; with non-negative holdings and prices a group value is non-negative |
| Models.GroupValueAppend | src/core/models.py:39-41 | a group's value is additive over concatenation of ticker lists |
| Models.GroupValueFrame | src/core/models.py:39-41 | a group's value depends only on the holdings and prices of its own tickers |
| Models.TotalValueIsCashPlusGroupValue | src/core/models.py:34-41 | the total value is the cash plus the group value of the held tickers listed once each |
| Models.UnheldPriceIgnored | src/core/models.py:34-37 | a price for a ticker that is not held leaves the total value unchanged |
| Models.NoPricesTotalIsCash | src/core/models.py:34-37 | with no prices the total value is the cash |
| Models.NoPricesHoldingsWorthless | src/core/models.py:36 | with no prices the holdings are worth 0 |
| Models.PortfolioScenario | tests/test_core_models.py:27-43 | 1000 cash with 10 A at 100 and 5 B at 200 is worth 3000; group [A] is worth 1000 and an unknown [C] is worth 0 |
| Logic.Analyze | src/core/logic.py:5-25 | each regime holds exactly under its condition: CRASH iff the breaker; BEAR_STRONG iff negative momentum and price under the 180-day average; BEAR_WEAK iff exactly one of the two, or momentum exactly 0 above the average; BULL iff momentum at least 0.05 above the average; SIDEWAYS iff momentum strictly between 0 and 0.05 above the average |
| Logic.AnalyzeBearFixture | tests/test_core_logic.py:6-9 | the strong-bear fixture is BEAR_STRONG; a mixed case is BEAR_WEAK; the bull fixture is BULL |
| Logic.RegimeCap | src/core/logic.py:37-41 | every cap lies above the 0.2 floor and at most 1; only the two bear regimes are capped below 1 |
| Logic.CalculateExposure | src/core/logic.py:28-47 | exposure is 0 iff CRASH; otherwise it lies between 0.2 and the regime cap (0.4, 0.6 or 1.0); it is 0.15/volatility inside that band, the cap when 0.15/volatility reaches the cap (including volatility 0), and 0.2 at negative or high volatility |
| Logic.ExposureAntitone | src/core/logic.py:33-47 | for positive volatilities a calmer market never gets a smaller exposure |
| Logic.ExposureCapExample | tests/test_core_logic.py:11-16 | BEAR_STRONG at volatility 0.10 is capped at 0.4 |
| Logic.Threshold | src/core/logic.py:60-67 | every threshold lies between 0 and 0.15, and it is 0 exactly in a crash |
| Logic.Trunc | src/core/logic.py:136 | Python's int(): the result lies between 0 and x, less than one away from x, for either sign |
| Logic.SharesShortFills | src/core/logic.py:132-136 | buying the fractional share shortfall makes the holding worth exactly the target |
| Logic.OrderFor | src/core/logic.py:128-141 | no order at a zero price; otherwise no order iff the fractional share shortfall is within (-1, 1); an order carries the ticker, the current price and a positive quantity; it is a BUY iff the shortfall is at least 1 and a SELL iff at most -1; the quantity never exceeds the shortfall's magnitude (truncation toward zero); after it fills, the holding is less than one share from the target |
| Logic.CreateOrders | src/core/logic.py:126-143 | at most one order per listed ticker, each for a listed ticker with a positive quantity, BUY or SELL, at the current non-zero price |
| Logic.CreateOrdersAppend | src/core/logic.py:128-141 | creating orders ticker by ticker: the orders for a concatenation are the orders for each part in turn |
| Logic.CreateOrdersSnoc | src/core/logic.py:128-141 | one more ticker appends exactly that ticker's order, if any |
| Logic.BuildOrders | src/core/logic.py:126-143 | the order-building loop computes exactly CreateOrders |
| Logic.OrdersOf | src/core/logic.py:105-117 | the orders selected for a ticker are exactly those of the list naming it |
| Logic.OrdersOfAppend | src/core/logic.py:105-117 | selecting a ticker's orders commutes with extending the order list |
| Logic.CreateOrdersPerTicker | src/core/logic.py:126-143 | in a group of distinct tickers each listed ticker gets exactly the OrderFor order (or none) and an unlisted ticker gets none |
| Logic.GroupOrders | src/core/logic.py:108-117 | an empty group orders nothing |
| Logic.CurrentSplitFlag | src/core/logic.py:74-85 | the rebalance flag is set iff the risky value is 0 or the gap between the group values exceeds threshold × the risky value, strictly |
| Logic.CurrentSplitRatios | src/core/logic.py:76-83 | the ratios sum to 1; they are 50/50 when the risky value is 0 and otherwise each group's share of it |
| Logic.InvestedShares | src/core/logic.py:87-101 | the two shares of an invested amount add up to it; they are equal after a reset; within the threshold each share stands to the amount as the group's current value to the risky value, so investing exactly the risky value gives each group its current value |
| Logic.Rebalancer.Targets | src/core/logic.py:87-101 | the two group targets add up to total value × exposure; they are equal when the split is reset; within the threshold each is total value × exposure in the proportion of the group's current value to the risky value (stated without dividing), so with the risky value already at total value × exposure each target is the group's current value |
| Logic.Rebalancer.Orders | src/core/logic.py:98-117 | at most one order per group ticker, group A's orders before group B's, each a positive BUY or SELL at the current non-zero price |
| Logic.Rebalancer.GenerateSignal | src/core/logic.py:54-124 | a missing "A", then a missing "B", is an error; otherwise it echoes the exposure, sets the flag iff the split drifted beyond the threshold (or the risky value is 0), gives a threshold reason iff the flag is set, carrying the threshold and the gap between the two current ratios, and has grouped, well-formed orders |
| Logic.GroupOrdersPerTicker | src/core/logic.py:108-117 | within a group of distinct tickers, at most one order per ticker and none for outsiders |
| Logic.SignalOrdersPerTicker | src/core/logic.py:98-141 | with disjoint groups of distinct tickers each ticker gets at most one order, and once it fills the holding is within one share of the ticker's share of total value × exposure × target ratio, and the order is no larger than the fractional shortfall; outsiders get none |
| Logic.OneOrderWithinOneShare | src/core/logic.py:132-141 | filling a ticker's own order leaves it less than one share from its target |
| Logic.ZeroTargetSellsAll | src/core/logic.py:132-141 | with a target of 0 every order sells the whole truncated holding |
| Logic.CrashLiquidates | src/core/logic.py:28-30 | in a crash the exposure is 0 and every order of the signal sells the whole truncated holding |
| Logic.AtTargetNoOrder | src/core/logic.py:132-141 | a holding already worth its target gets no order |
| Logic.SingleTickerGroupOrders | src/core/logic.py:108-117 | a one-ticker group orders exactly that ticker's order at the whole group target |
| Logic.BalancedSignalIsIdle | src/core/logic.py:54-141 | idempotence for one ticker per group: a split within the threshold and a risky value already at total value × exposure, there are no orders |
| Logic.InitialBuyTargets | tests/test_core_logic.py:18-26 | with nothing invested the split resets to 50/50 and 10000 × 0.4 gives each group 2000 |
| Logic.InitialBuyOrders | tests/test_core_logic.py:26-30 | 2000 at a price of 100 is a BUY of 20 |
| Logic.ExposureRaiseTargets | src/core/logic.py:87-101 | 10 shares of each of two tickers at 100 and 2000 in cash, in a bull market at exposure 1.0: the 50/50 split is kept and each group aims for 2000 |
| Logic.ExposureRaiseOrders | src/core/logic.py:126-143 | 2000 against a holding of 10 at 100 is a BUY of 10 in each one-ticker group |
| Logic.InitialBuyExample | tests/test_core_logic.py:18-30 | 10000 in cash at exposure 0.4 in BEAR_STRONG with prices 100 gives a rebalance and two BUYs of 20 |
| Broker.ApplyOrders | src/infra/broker.py:28-39 | over a batch, cash moves by the sell notional minus the buy notional |
| Broker.ApplyOrder | src/infra/broker.py:32-39 | a BUY pays quantity × price and adds the quantity; a SELL receives the amount and never leaves a negative holding; another action changes nothing; other tickers keep their holdings |
| Broker.ApplyOrdersUntouched | src/infra/broker.py:28-39 | a ticker no order names keeps its holding, present or absent |
| Broker.ApplyOrdersNonNegative | src/infra/broker.py:28-39 | holdings stay non-negative while no BUY has a negative quantity |
| Broker.ApplyOrdersKeys | src/infra/broker.py:28-39 | afterwards the held tickers are the previous ones plus every ticker a BUY or SELL names |
| Broker.ApplyOrdersSummary | src/infra/broker.py:28-39 | the cash, untouched-ticker and non-negativity facts together |
| Broker.MixedOrdersExample | tests/test_intra_broker.py:41-55 | 1000 cash and 10 OLD, then BUY 2 NEW at 100 and SELL 5 OLD at 10, gives 850 cash, 2 NEW and 5 OLD |
| Broker.OverSellExample | tests/test_infra_broker.py:74-87 | selling 10 at 100 from a holding of 5 leaves 0 held and credits the full 1000 |
| Broker.NoAffordabilityCheck | src/infra/broker.py:32-35 | 100 in cash still buys 10 at 100, leaving -900 |
| Broker.MockBroker.constructor | src/infra/broker.py:11-13 | starts with the given cash and the given holdings, none when absent or empty |
| Broker.MockBroker.GetPortfolio | src/infra/broker.py:16-24 | reports the cash and holdings with no prices, so the total value is the cash |
| Broker.MockBroker.ExecuteOrders | src/infra/broker.py:26-42 | the new account is the orders applied in list order; cash moves by sells minus buys; unnamed tickers are untouched; non-negative holdings stay non-negative; it returns true |
| Broker.PricesFor | src/backtest/components.py:63-65 | exactly the requested tickers, each at its injected price or 0.0 |
| Broker.FetchedPricesValueGroups | src/backtest/components.py:63-65 | the fetched prices value any group of requested tickers as the full snapshot does |
| BacktestComponents.Repriced | src/backtest/components.py:73-75 | ticker, action and quantity are kept; the price becomes the day's close when known and is unchanged otherwise |
| BacktestComponents.RepricedAll | src/backtest/components.py:71-76 | same length, each order repriced |
| BacktestComponents.RepriceOrders | src/backtest/components.py:71-76 | the repricing loop keeps ticker, action, quantity and order, and sets each price to the close or leaves it |
| BacktestComponents.RepriceIdempotent | src/backtest/components.py:71-76 | repricing twice with the same closes is repricing once |
| BacktestComponents.RepricedNotional | src/backtest/components.py:67-78 | for tickers with a close, the notional filled does not depend on the prices the orders carried |
| BacktestComponents.BacktestBroker.constructor | src/backtest/components.py:56-58 | the given cash, no holdings, no closes |
| BacktestComponents.BacktestBroker.SetPrices | src/backtest/components.py:60-61 | the closes are replaced |
| BacktestComponents.BacktestBroker.FetchCurrentPrices | src/backtest/components.py:63-65 | exactly the requested tickers at their close or 0.0 |
| BacktestComponents.BacktestBroker.ExecuteOrders | src/backtest/components.py:67-78 | the mock broker's account is the repriced orders applied in turn; cash moves by the notional at the closes; it returns true |
| BacktestComponents.InjectedPriceExample | tests/test_backtest_components.py:48-60 | a BUY of 10 written at 150 fills at the injected 200: 10000 cash becomes 8000 |
| BacktestSimple.BacktestBroker.constructor | src/backtest/broker.py:10-12 | the given cash, no holdings, no snapshot |
| BacktestSimple.BacktestBroker.SetPrices | src/backtest/broker.py:15-16 | the snapshot is replaced |
| BacktestSimple.BacktestBroker.FetchCurrentPrices | src/backtest/broker.py:19-20 | exactly the requested tickers at their snapshot price or 0.0 |
| BacktestSimple.BacktestBroker.ExecuteOrders | src/backtest/broker.py:22-26 | the orders go to the mock broker unchanged, filled at their own prices; it returns true |

## Left out

- Every part of the system outside these five files is not part of this model:
  - data fetching;
  - indicator calculation (volatility, momentum, drawdown);
  - notifications;
  - persistence;
  - the daily runner and the backtest engine;
  - configuration;
  - the broker interface;
  - the live KIS broker;
  - the dashboard.
  Their results enter only as parameters: market data, prices and portfolios.
- Floating-point rounding: all quantities are reals.
- The `hasattr(portfolio, 'get_allocation_ratio')` branch of `src/core/logic.py:70`: `Portfolio` has no such method, so only the summation path is modelled.
- The default of the threshold lookup (`src/core/logic.py:67`): every regime has an entry, so it is unreachable.
- Logic.Rebalancer.GenerateSignal: the reason's text (its percentage formatting) is modelled as the datatype `SignalReason`, which keeps its two numbers.
- Logic.Rebalancer.GenerateSignal: it is a ghost function because the total value is a ghost sum over a dictionary, so no loop method mirrors its two `extend` steps. The per-group order loop is modelled by `Logic.BuildOrders`.
- Console output of the mock broker.
- Aliasing:
  - The mock broker keeps the caller's holdings dictionary, and `get_portfolio` hands out that same dictionary. Here both are values.
  - The components backtest broker overwrites `order.price` inside the caller's `Order` objects. Here orders are values: the caller's list is unchanged and only the repriced copy is executed.
- Broker.MockBroker.constructor: a caller passing an empty dictionary gets a fresh one in the source; here the two are indistinguishable.
- `TradeExecution` is declared but never produced by the modelled code. `BacktestComponents.BacktestBroker.ExecuteOrders` is annotated as returning executions but returns `True`, and is modelled as returning `true`.
- Logic.BalancedSignalIsIdle: stated for one ticker per group only. The configured groups hold two and three tickers (`src/config.py:10-14`); there a split within the threshold can still trade, because every ticker of a group aims at an equal share of the group target and an uneven split inside a group is corrected.
- The action string: only "BUY" and "SELL" have effect, and any other string is `OtherAction`. Nothing forbids `OtherAction("BUY")`, which the model treats as an unknown action.
