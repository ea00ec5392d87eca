# Telegram-to-Bybit signal bot: the trading logic

This project models the decision logic of a small trading bot. The bot reads
trade signals (symbol, direction, leverage, entry price, four take-profit
prices) from a Telegram channel and places leveraged limit orders on Bybit
through the ccxt exchange client. The model covers:

- the configuration constants (`config.py`);
- the stop-loss price calculator, the entry sizing, the order-status monitor
  with its expiry cancel and closed-order fallback, and the placement of the
  entry and its take-profit legs (`order_functions.py`);
- the older trading path of `main.py`: the side mapping and the USDT check of
  `process_signal`, the fill wait without a timeout, and the placement with
  four fixed take-profit shares.

The exchange is abstracted away. Building the client, switching it to sandbox
mode and every request the bot sends through it are recorded as an `Action`
in a log that the operations return. The venue's local amount rounding,
`amount_to_precision`, sends nothing and is not logged: it is a function
parameter. Everything the exchange
answers is an input:
- the free balances;
- the id of the created order;
- one element per loop iteration for the polls.

The length of the poll sequence bounds a run. When the polls run out before
the loop ends, the outcome is `StillPolling`. Python exceptions that escape an
operation become the `Err` case of a `Result`. Prices and amounts are exact
`real` numbers.

Files, one module each:

- `venue.dfy`: `Venue`, the shared vocabulary. It holds order statuses, orders, lookups, the action log, outcomes, and the units `Seconds` and `Millis`.
- `config.dfy`: `Config`, the constants with their units.
- `stop_price.dfy`: `StopPrice`, `calculate_stop_price` and the leveraged ROI it inverts.
- `sizing.dfy`: `Sizing`, `calculate_main_order_qty` in both scripts' variants.
- `order_monitor.dfy`: `OrderMonitor`, `monitor_order` as a specification function and as a `while` loop.
- `take_profit.dfy`: `TakeProfit`, the take-profit legs and the `for` loop that places them.
- `order_placement.dfy`: `OrderPlacement`, `place_order` of `order_functions.py`.
- `signal_bot.dfy`: `SignalBot`, the `main.py` trading path.

`order_functions.py` imports `STOP_LOSS_ROI` and `TAKE_PROFIT_PCTS`, but
`config.py` does not define them, so the module cannot be imported as
written. The model takes both as fields of `OrderPlacement.Request`.

## Model

| member | source | states |
|---|---|---|
| Config.ExpiryAsCompared | order_functions.py:77-84 | the threshold the monitor applies is the millisecond count of `ORDER_EXPIRATION_TIME` read as seconds |
| Config.ExpiryIntended | config.py:8 | the documented threshold is one day, 86400 s, which is the constant converted from milliseconds |
| Config.ToSeconds | config.py:8 | converting a duration from milliseconds to seconds divides it by 1000 |
| Config.LevelsSharesSumToOne | config.py:1-5 | the ladder has three levels whose quantity shares each lie in (0, 1] and sum to 1 |
| Config.LevelRoiSigns | config.py:1-6 | every level's stop-loss ROI and the trailing stop ROI are negative, and every take-profit ROI is positive |
| Config.ExpirationUnits | config.py:8 | the expiration constant is 86,400,000 ms, which is one day; read as seconds it is 1000 times the intended threshold |
| Config.BalanceAndPollBounds | config.py:7-9 | the balance fraction lies in (0, 1) and the poll interval is positive |
| StopPrice.Lower | order_functions.py:55 | lower-casing keeps the length, maps each ASCII capital to its lower-case letter and keeps every other character |
| StopPrice.LowerIdempotent | order_functions.py:55 | lower-casing twice is lower-casing once |
| StopPrice.CalculateStopPrice | order_functions.py:52-64 | a non-negative ROI fails with the ROI error before the side is looked at; otherwise the call succeeds exactly when the lower-cased side is buy or sell and the leverage is non-zero; a zero leverage fails with a division error; any other side fails with the invalid-side error naming the side |
| StopPrice.StopPriceRealisesRoi | order_functions.py:55-59 | a price is the computed stop exactly when the leveraged position opened at the entry reaches the requested ROI there, long for buy and short for sell |
| StopPrice.BuyStopBelowEntry | order_functions.py:55-56 | with a positive entry and leverage and a negative ROI, a buy stop lies strictly below the entry |
| StopPrice.SellStopAboveEntry | order_functions.py:58-59 | under the same conditions a sell stop lies strictly above the entry |
| StopPrice.LongShortSymmetric | order_functions.py:56-59 | the buy and sell stops for the same inputs sum to twice the entry |
| StopPrice.SideCaseInsensitive | order_functions.py:55-62 | a side and its lower-cased form give the same result |
| StopPrice.UpperCaseSidesAccepted | order_functions.py:55-59 | "BUY" and "Sell" are accepted like "buy" and "sell" |
| StopPrice.ConfiguredStopLossesAccepted | order_functions.py:52-53 | every configured stop-loss ROI passes the sign check, so for a valid side and a non-zero leverage the calculator succeeds |
| Sizing.RawQuantity | order_functions.py:68-71 | sizing succeeds exactly when the balance has a USDT entry and the price is non-zero; a missing USDT entry is its own error; the quantity times the price is the free USDT times the fraction times the leverage |
| Sizing.MainOrderQty | order_functions.py:67-72 | the entry quantity is the venue-rounded raw quantity, and it fails exactly when the raw quantity does, with the same error |
| Sizing.MainScriptFractionIsBalancePct | main.py:95-100 | the literal 0.02 of the main script sizes exactly like `BALANCE_PCT` |
| Sizing.RawQuantitySignAndScale | order_functions.py:71 | with a non-negative balance and positive leverage and price the raw quantity is non-negative, and scaling the leverage scales it by the same factor |
| Sizing.ExampleQuantity | order_functions.py:71 | 1000 USDT free, 10x leverage and price 50000 give 0.004 |
| OrderMonitor.PollStep | order_functions.py:81-95 | every iteration first looks the order up in the open view; the closed view is consulted exactly when the open view does not know the order; a cancel is issued exactly when the open view reports the order open past the threshold, and the loop then returns not filled |
| OrderMonitor.Monitor | order_functions.py:75-102 | a run that is still polling has issued at least one action per poll |
| OrderMonitor.PollOnce | order_functions.py:81-94 | one loop iteration issues the actions of `PollStep`, and its early return and observed status give that step's outcome; without an early return, the order it keeps is the one just fetched, from the open view when that knows the order and from the closed view otherwise |
| OrderMonitor.MonitorOrder | order_functions.py:75-102 | the `while` loop, with its early returns, yields exactly the outcome and actions of `Monitor` |
| OrderMonitor.MonitorAdvance | order_functions.py:78-95 | one iteration either ends the run with its own outcome or leaves the rest of the polls to decide it |
| OrderMonitor.MonitorUnfold | order_functions.py:78-95 | the run from a position is that position's step followed, if the step continues, by the run from the next position |
| OrderMonitor.MonitorStopsAtFirstStop | order_functions.py:78-102 | the run ends at the first poll that does not continue; that poll decides the outcome, and the actions are those of the polls up to it |
| OrderMonitor.MonitorStillPollingIff | order_functions.py:78 | the run is still polling when the polls run out exactly when every poll continues the loop |
| OrderMonitor.CancelIsLastAction | order_functions.py:84-87 | a cancel is always the last action and the outcome is then not filled, so at most one cancel is issued |
| OrderMonitor.CancelIffExpiredOpen | order_functions.py:84-87 | a cancel is issued exactly when the first poll that ends the loop reports the order open past the threshold |
| OrderMonitor.FallbackNeverCancels | order_functions.py:88-94 | when the open view never knows the order, no cancel is issued, whatever the elapsed times |
| OrderMonitor.StepActionsSnoc | order_functions.py:78-95 | the actions of the first k+1 polls are those of the first k followed by those of poll k |
| OrderMonitor.ClosedFallback | order_functions.py:88-99 | at the first poll whose open view does not know the order, a closed report from the closed view returns that order as filled, and a second not-found returns not filled with no cancel anywhere in the run; either way the run ends with that poll's two lookups |
| OrderMonitor.FilledMeansClosed | order_functions.py:97-99 | the monitor returns an order only if its status is closed and some poll reported exactly that order |
| OrderMonitor.MonitorReturnsOrderIffClosed | order_functions.py:78-102 | at the first poll whose consulted view (the open view, or the closed view when the open one no longer knows the order) reports a terminal order, the monitor returns that order exactly when its status is closed, and otherwise reports it not filled |
| OrderMonitor.OpenOrderCanceledIffPastExpiry | order_functions.py:84-87 | for an order always reported open, a cancel is issued exactly when some poll comes after the threshold, and the run is still polling exactly when none does |
| OrderMonitor.MonitorCreatesNoOrders | order_functions.py:75-102 | the monitor creates no orders |
| OrderMonitor.AsWrittenKeepsTwoDayOldOrder | order_functions.py:84 | with the threshold as compared, an order still open after two days is not cancelled |
| OrderMonitor.IntendedExpiryCancelsAfterOneDay | order_functions.py:84-87 | with the threshold in seconds, an order always reported open is cancelled and reported not filled once any poll comes after one day |
| TakeProfit.OppositeSide | order_functions.py:36 | the take-profit side is buy exactly when the entry side is sell, and otherwise sell |
| TakeProfit.TakeProfitLegs | order_functions.py:34-37 | there is one leg per pair of the zip, as many as the shorter list; the i-th leg is on the opposite side, at the i-th price, for the venue-rounded i-th share of the quantity |
| TakeProfit.IntendedTakeProfitLegs | order_functions.py:34-37 | the corrected legs: as many as the shorter list, each at its own price for its rounded share, on the side opposite to the lower-cased entry side |
| TakeProfit.IntendedLegsOppositeToEntry | order_functions.py:36 | with the corrected flip, for every side the stop-loss calculator accepts, in any capitalisation, every leg is on the other side of the position, a buy exactly when the entry is a sell |
| TakeProfit.UpperCaseSellLegsAreSells | order_functions.py:36-37 | as written, every take-profit order of an entry on "SELL" is a sell |
| TakeProfit.IntendedAgreesOnLowerCase | order_functions.py:36 | on a side already in lower case the corrected legs are the legs as written |
| TakeProfit.LegActions | order_functions.py:37 | each leg becomes one limit order without a stop, in order |
| TakeProfit.PlaceTakeProfits | order_functions.py:34-38 | the `for` loop issues exactly the limit orders of the legs, in zip order |
| TakeProfit.LegsOppositeToEntry | order_functions.py:36 | for an entry on buy or sell, every leg is on the other of the two sides |
| TakeProfit.LegActionsAreOrders | order_functions.py:37 | every action of the leg loop creates an order |
| TakeProfit.MainProfitPctsSumToOne | main.py:87 | the main script has four fixed shares, each in (0, 1], that sum to 1 |
| TakeProfit.MainScriptFourLegs | main.py:87-91 | with four prices, the main script places four legs: the first for the 0.4 share and the other three for 0.2, each at its own price |
| OrderPlacement.PlaceOrderRun | order_functions.py:11-38 | the placement first sets the leverage and fetches the balance; it fails exactly when it has issued only those two actions, and otherwise its third action is the entry order at the request's price and side, with a stop attached |
| OrderPlacement.PlaceOrderRunPlaced | order_functions.py:19-37 | a placement that passes sizing and the stop price issues the two setup actions, the entry with its stop, the monitor's actions, and the legs only when the monitor returned the filled order |
| OrderPlacement.PlaceOrder | order_functions.py:11-38 | the placement issues exactly the actions of `PlaceOrderRun` and returns its result |
| OrderPlacement.FailsBeforeAnyOrder | order_functions.py:13-22 | a placement fails exactly when sizing or the stop price fails; it has then only set the leverage and fetched the balance, and has created no order |
| OrderPlacement.TakeProfitsOnlyAfterFill | order_functions.py:23-37 | a successful placement creates the entry carrying the computed stop, then the take-profit legs exactly when the monitor returned the filled order, and nothing else |
| OrderPlacement.AsWrittenUpperCaseSellLegsOnEntrySide | order_functions.py:22-37 | for an entry on "SELL" that fills, the stop lies above the price, as for a short, yet every take-profit leg after the entry is a sell |
| TakeProfit.UpperCaseSellOrdersAfterEntry | order_functions.py:34-37 | after the entry, every leg order of an entry on "SELL" is a sell, and there is at least one when both price and share lists are non-empty |
| OrderPlacement.EntryStopOnLosingSide | order_functions.py:22-26 | for a positive price and leverage, the stop attached to a long entry lies below the price and that of a short entry above it |
| SignalBot.OrderSide | main.py:45 | "Long" maps to buy and every other side string maps to sell |
| SignalBot.IndexOfSlash | main.py:47 | the position found is that of the first '/', and there is none exactly when the symbol has no '/' |
| SignalBot.QuotePart | main.py:47 | the second field exists exactly when the symbol has a '/', and it contains no '/' |
| SignalBot.QuoteIsSecondField | main.py:47 | the second field of "base/quote", followed by nothing or by further '/'-separated fields, is the quote |
| SignalBot.QuotePartIsSecondField | main.py:47 | the second field is the text after the first '/', up to the next '/' or the end |
| SignalBot.ValidateSignal | main.py:45-49 | a signal passes exactly when its second field is USDT, and then yields the mapped side; a symbol without '/' fails on the subscript; another quote fails naming that quote |
| SignalBot.UsdtPairAccepted | main.py:45-49 | "BTC/USDT" Long is accepted as buy |
| SignalBot.OtherSymbolsRejected | main.py:47-49 | "ETH/BTC" is rejected naming BTC, and "BTCUSDT" fails on the subscript |
| SignalBot.WaitForFilled | main.py:103-116 | the wait only fetches the order, at most once per response |
| SignalBot.WaitForOrderFilled | main.py:103-116 | the `while` loop yields exactly the outcome and actions of `WaitForFilled` |
| SignalBot.WaitAdvance | main.py:105-108 | one fetch either ends the wait on a terminal status or leaves the rest of the responses to decide it |
| SignalBot.WaitStopsAtFirstTerminal | main.py:105-116 | the wait ends at the first terminal status, after one fetch per response up to it, and that response decides the outcome |
| SignalBot.WaitNoTimeout | main.py:105-108 | there is no timeout: the wait is still polling exactly when no response is terminal, and it has then fetched once per response |
| SignalBot.WaitReturnsOrderIffClosed | main.py:111-116 | a finished wait has fetched at least once, and its last response is terminal; it returns an order exactly when that status is closed, and the order is that last response |
| SignalBot.PlaceOrderRun | main.py:68-92 | the placement first sets the leverage and fetches the balance; it fails exactly when sizing fails, and then with only those two actions; otherwise its third action is the entry order at the signal's price and side, without a stop, for the computed quantity |
| SignalBot.PlaceOrderRunPlaced | main.py:76-91 | a placement that passes sizing issues the two setup actions, the entry, the wait's fetches, and the legs only when the wait returned the filled order |
| SignalBot.PlaceOrder | main.py:68-92 | the placement issues exactly the actions of `PlaceOrderRun` and returns its result |
| SignalBot.MainTakeProfitsOnlyAfterFill | main.py:80-91 | a successful placement creates the entry without a stop, then the fixed-share legs exactly when the wait returned the filled order, and nothing else |
| SignalBot.WaitCreatesNoOrders | main.py:103-116 | the wait creates no orders |
| SignalBot.ProcessSignal | main.py:36-65 | a signal that fails the checks ends with that error before any exchange call; otherwise the handler builds the client (which opens no connection), switches it to sandbox mode, loads the markets and places the order; it closes the exchange exactly when the placement did not raise and its wait has finished, so a placement still polling issues no close |
| SignalBot.PlacementNeverCloses | main.py:68-92 | the placement itself never closes the exchange; only the handler does |
| SignalBot.SignalLegsOppositeToEntry | main.py:45-90 | every take-profit leg of a signal is on the side opposite to its mapped entry side, so a leg is a buy exactly when the signal is not Long |
| Venue.ParseStatus | order_functions.py:83 | a venue status string maps to one of the five named statuses exactly when it is one of their names, and to the other status otherwise |
| Venue.StatusRoundTrip | order_functions.py:83 | every venue string stands for exactly one status, and every status for exactly one string |
| Venue.TerminalStrings | order_functions.py:78 | a status string ends the polling loops exactly when it is "closed", "canceled", "expired" or "rejected" |
| Venue.Decide | order_functions.py:97-102 | a terminal order yields the filled outcome exactly when its status is closed, carrying the order |
| Venue.OrdersCreated | order_functions.py:26-37 | the created orders are exactly the order-creating actions of the log |
| Venue.OrdersCreatedAppend | order_functions.py:26-37 | the orders of two logs joined are the orders of each, joined |
| Venue.OrdersAroundEntry | order_functions.py:26-37 | a log that creates only its entry and a tail of orders creates the entry followed by the tail's orders |

## Left out

- The Telegram client, its session, the event handler, `asyncio.create_task` and the main loop (main.py:28-33, 119-132) are I/O and concurrency.
- The `signal_pattern` regular expression (main.py:18-26): the parsed fields of a `SignalBot.Signal` are inputs.
- The conversions `float(...)` of the captured fields are not modelled; a failed conversion cannot arise from a pattern of digits.
- `get_all_signals.py` is not part of this model: it lists dialogs and exports message history to CSV.
- The exchange client's calls are not modelled as such. Each becomes an `Action` in the returned log, and the answers become inputs. Only `OrderNotFound` from the two lookups of `monitor_order` (order_functions.py:82,90) is modelled, as a `NotFound` lookup. Exceptions raised by the other calls are not modelled:
  - `create_limit_order`, `fetch_balance`, `load_markets`, `cancel_order` and `close`;
  - `fetch_order` (main.py:107). An `OrderNotFound` there would escape to the catch-all at main.py:64-65 and skip `exchange.close()` at main.py:63;
  - `set_leverage` in `order_functions.py`, apart from `BadRequest`. Only `BadRequest` is caught there (order_functions.py:13-16); any other error escapes `place_order` before the balance is fetched.
- `set_leverage` in `main.py` has every exception caught and printed (main.py:70-73). Both placements record the call and carry on, which in `order_functions.py` is only the `BadRequest` path.
- OrderMonitor.CancelIsLastAction: holds only because `cancel_order` cannot raise in the model. In the source, an `OrderNotFound` from `cancel_order` (order_functions.py:85) is caught at order_functions.py:88 and followed by the closed-order lookup, so such a run could still end filled after the cancel.
- TakeProfit.LegsOppositeToEntry: is stated only for entries spelled exactly "buy" or "sell". The flip at order_functions.py:36 is case-sensitive, unlike the side check of the stop-loss calculator; see the second row of "## Findings". In `main.py` the side is always "buy" or "sell" (main.py:45), so there the restriction never applies.
- `amount_to_precision` is the venue's own rounding. It is a function parameter (`Sizing.Precision`), and nothing is assumed about the amount it returns. The model does assume that it always returns. Its exceptions (for instance an amount below the market's minimum precision) are not modelled:
  - in sizing, such an exception would escape `calculate_main_order_qty` before the entry is placed;
  - in the take-profit loops (order_functions.py:35, main.py:89), it would end the loop after the earlier legs were already placed, and would escape `place_order`.
- The clock and `asyncio.sleep`: each poll carries its elapsed time in seconds.
- `ccxt.bybit(...)` (main.py:52-57) only builds the client object. The API keys and options it is given are not modelled; the call is recorded as `CreateExchange`. `set_sandbox_mode(True)` (main.py:58) is recorded as `SetSandboxMode`. Neither can fail in the model.
- Logging and `print` calls, including the catch-all of `process_signal`, which only prints the error. `SignalBot.ProcessSignal` returns that error instead.
- Python floats are modelled as exact reals, so rounding errors in the stop price and the quantity are not captured.
- StopPrice.Lower: lower-cases ASCII letters only, whereas `str.lower` also lower-cases other Unicode letters.
- Sizing.RawQuantity: takes the balance as a map of free amounts per currency. A missing USDT entry is one error, standing for the subscript of `None`; a missing `free` field is not modelled.
- OrderMonitor.Monitor: the run is bounded by the number of polls supplied. A loop that goes on beyond them ends as `StillPolling`, so an endless monitor is a run that never ends with another outcome.
- SignalBot.WaitForFilled: bounded in the same way by the responses supplied.
- `STOP_LOSS_ROI` and `TAKE_PROFIT_PCTS` are missing from `config.py`. They are parameters of `OrderPlacement.Request`, and so is the monitor's expiry threshold, so that both `Config.ExpiryAsCompared` and `Config.ExpiryIntended` can be supplied.
- A trailing stop, a sweeper of stale orders and a `LEVELS`-driven ladder with residual allocation do not exist in the code. Only the constants they would use are modelled.
- Take-profit amounts are not claimed to add up to the entry quantity. The venue rounds each one separately, and in `order_functions.py` the shares are a parameter.

## Findings

| source | as written | input that shows it | evidently intended | confidence | as-written member | corrected member |
|---|---|---|---|---|---|---|
| order_functions.py:84 | `elapsed_time > ORDER_EXPIRATION_TIME` compares seconds with the constant declared in milliseconds (config.py:8), so the order expires only after 86,400,000 s, about 1000 days | an order still reported open at a poll 172,800 s (two days) after placement is not cancelled | cancel an order still open one day (86,400 s) after placement | high; not executed | OrderMonitor.AsWrittenKeepsTwoDayOldOrder | OrderMonitor.IntendedExpiryCancelsAfterOneDay |
| order_functions.py:36 | `'buy' if side == 'sell' else 'sell'` compares the entry side case-sensitively, while `calculate_stop_price` lower-cases it (order_functions.py:55,58) | an entry on "SELL" that fills: its stop is a short stop above the price, and every take-profit leg is a sell, on the entry's own side | flip the lower-cased side, so that the legs close the position the stop protects | medium; not executed | OrderPlacement.AsWrittenUpperCaseSellLegsOnEntrySide | TakeProfit.IntendedLegsOppositeToEntry |
