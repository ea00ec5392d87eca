/** `place_order` of order_functions.py: set the leverage, size the entry,
    place it as a limit order with a market stop-loss attached, monitor it
    and, once it has filled, place the take-profit legs.

    The stop-loss ROI and the take-profit shares are parameters: the names
    the module imports for them are not defined in the configuration. The
    expiry threshold of the monitor is a parameter too (see
    `Config.ExpiryAsCompared` and `Config.ExpiryIntended`). */
module OrderPlacement {
  import opened Venue
  import Config
  import StopPrice
  import Sizing
  import OrderMonitor
  import TakeProfit

  /** The exceptions that escape `place_order`. */
  datatype PlaceError =
    | SizingFailed(sizing: Sizing.SizingError)
    | StopPriceFailed(stop: StopPrice.StopPriceError)

  /** What the venue answers during one placement: the free balances, the
      id of the entry order it creates, and the monitor's polls. */
  datatype Responses = Responses(balance: map<string, real>, entryId: string, polls: seq<OrderMonitor.Poll>)

  /** The monitor's outcome, or the exception that ended the placement, with
      every action issued. */
  datatype Placement = Placement(result: Result<Outcome, PlaceError>, actions: seq<Action>)

  /** The parameters of one call of `place_order`. */
  datatype Request = Request(
    side: string, symbol: string, leverage: real, price: real, takeProfitPrices: seq<real>,
    stopLossRoi: real, takeProfitPcts: seq<real>, expiry: Seconds)

  function EntryOrder(req: Request, quantity: real, stopPrice: real): Action
  {
    CreateLimitOrder(req.symbol, req.side, quantity, req.price, Some(stopPrice))
  }

  /** The specification of a placement. */
  function PlaceOrderRun(req: Request, venue: Responses, precision: Sizing.Precision): (p: Placement)
    ensures |p.actions| >= 2 && p.actions[0] == SetLeverage(req.leverage, req.symbol) && p.actions[1] == FetchBalance
    ensures p.result.Err? <==> |p.actions| == 2
    ensures p.result.Ok? ==>
      p.actions[2].CreateLimitOrder? && p.actions[2].side == req.side && p.actions[2].price == req.price &&
      p.actions[2].stopLoss.Some?
  {
    var setup := [SetLeverage(req.leverage, req.symbol), FetchBalance];
    match Sizing.MainOrderQty(venue.balance, Config.BALANCE_PCT, req.leverage, req.price, req.symbol, precision)
    case Err(e) => Placement(Err(SizingFailed(e)), setup)
    case Ok(quantity) =>
      match StopPrice.CalculateStopPrice(req.price, req.stopLossRoi, req.leverage, req.side)
      case Err(e) => Placement(Err(StopPriceFailed(e)), setup)
      case Ok(stopPrice) =>
        var run := OrderMonitor.Monitor(venue.entryId, req.symbol, req.expiry, venue.polls);
        var legs := if run.outcome.Filled?
          then TakeProfit.LegActions(TakeProfit.TakeProfitLegs(req.symbol, req.side, quantity, req.takeProfitPrices, req.takeProfitPcts, precision))
          else [];
        Placement(Ok(run.outcome), setup + [EntryOrder(req, quantity, stopPrice)] + run.actions + legs)
  }

  method PlaceOrder(req: Request, venue: Responses, precision: Sizing.Precision)
    returns (result: Result<Outcome, PlaceError>, actions: seq<Action>)
    ensures Placement(result, actions) == PlaceOrderRun(req, venue, precision)
  {
    actions := [SetLeverage(req.leverage, req.symbol)];  // a BadRequest here is only logged
    actions := actions + [FetchBalance];
    var quantity := Sizing.MainOrderQty(venue.balance, Config.BALANCE_PCT, req.leverage, req.price, req.symbol, precision);
    if quantity.Err? {
      assert PlaceOrderRun(req, venue, precision) == Placement(Err(SizingFailed(quantity.error)), actions);
      return Err(SizingFailed(quantity.error)), actions;
    }
    var stopPrice := StopPrice.CalculateStopPrice(req.price, req.stopLossRoi, req.leverage, req.side);
    if stopPrice.Err? {
      assert PlaceOrderRun(req, venue, precision) == Placement(Err(StopPriceFailed(stopPrice.error)), actions);
      return Err(StopPriceFailed(stopPrice.error)), actions;
    }
    PlaceOrderRunPlaced(req, venue, precision);
    actions := actions + [CreateLimitOrder(req.symbol, req.side, quantity.value, req.price, Some(stopPrice.value))];
    ghost var head := actions;
    var outcome, monitorActions := OrderMonitor.MonitorOrder(venue.entryId, req.symbol, req.expiry, venue.polls);
    actions := actions + monitorActions;
    var legActions := [];
    if outcome.Filled? {
      legActions := TakeProfit.PlaceTakeProfits(
        req.symbol, req.side, quantity.value, req.takeProfitPrices, req.takeProfitPcts, precision);
    }
    actions := actions + legActions;
    result := Ok(outcome);
    assert head == [SetLeverage(req.leverage, req.symbol), FetchBalance, EntryOrder(req, quantity.value, stopPrice.value)];
    assert actions == head + monitorActions + legActions;
  }

  /** A placement that passes sizing and the stop price: the entry with its
      stop, the monitor's actions, then the legs only on a fill. */
  lemma PlaceOrderRunPlaced(req: Request, venue: Responses, precision: Sizing.Precision)
    requires Sizing.MainOrderQty(venue.balance, Config.BALANCE_PCT, req.leverage, req.price, req.symbol, precision).Ok?
    requires StopPrice.CalculateStopPrice(req.price, req.stopLossRoi, req.leverage, req.side).Ok?
    ensures var quantity := Sizing.MainOrderQty(venue.balance, Config.BALANCE_PCT, req.leverage, req.price, req.symbol, precision).value;
      var stopPrice := StopPrice.CalculateStopPrice(req.price, req.stopLossRoi, req.leverage, req.side).value;
      var run := OrderMonitor.Monitor(venue.entryId, req.symbol, req.expiry, venue.polls);
      PlaceOrderRun(req, venue, precision) == Placement(Ok(run.outcome),
        [SetLeverage(req.leverage, req.symbol), FetchBalance, EntryOrder(req, quantity, stopPrice)] + run.actions +
        (if run.outcome.Filled?
         then TakeProfit.LegActions(TakeProfit.TakeProfitLegs(req.symbol, req.side, quantity, req.takeProfitPrices, req.takeProfitPcts, precision))
         else []))
  {
    var quantity := Sizing.MainOrderQty(venue.balance, Config.BALANCE_PCT, req.leverage, req.price, req.symbol, precision).value;
    var stopPrice := StopPrice.CalculateStopPrice(req.price, req.stopLossRoi, req.leverage, req.side).value;
    assert [SetLeverage(req.leverage, req.symbol), FetchBalance] + [EntryOrder(req, quantity, stopPrice)]
        == [SetLeverage(req.leverage, req.symbol), FetchBalance, EntryOrder(req, quantity, stopPrice)];
  }

  /** A sizing or stop-price error ends the placement before any order is
      created: only the leverage has been set and the balance fetched. */
  lemma FailsBeforeAnyOrder(req: Request, venue: Responses, precision: Sizing.Precision)
    ensures var p := PlaceOrderRun(req, venue, precision);
      p.result.Err? <==>
        Sizing.MainOrderQty(venue.balance, Config.BALANCE_PCT, req.leverage, req.price, req.symbol, precision).Err? ||
        StopPrice.CalculateStopPrice(req.price, req.stopLossRoi, req.leverage, req.side).Err?
    ensures var p := PlaceOrderRun(req, venue, precision);
      p.result.Err? ==> p.actions == [SetLeverage(req.leverage, req.symbol), FetchBalance] && OrdersCreated(p.actions) == []
  {
  }

  /** The orders created are the entry, carrying the computed stop price,
      followed by the take-profit legs exactly when the monitor returned the
      filled order, and nothing else. */
  lemma TakeProfitsOnlyAfterFill(req: Request, venue: Responses, precision: Sizing.Precision)
    requires PlaceOrderRun(req, venue, precision).result.Ok?
    ensures var p := PlaceOrderRun(req, venue, precision);
      var quantity := Sizing.MainOrderQty(venue.balance, Config.BALANCE_PCT, req.leverage, req.price, req.symbol, precision).value;
      var stopPrice := StopPrice.CalculateStopPrice(req.price, req.stopLossRoi, req.leverage, req.side).value;
      OrdersCreated(p.actions) ==
        [EntryOrder(req, quantity, stopPrice)] +
        (if p.result.value.Filled?
         then TakeProfit.LegActions(TakeProfit.TakeProfitLegs(req.symbol, req.side, quantity, req.takeProfitPrices, req.takeProfitPcts, precision))
         else [])
    ensures var p := PlaceOrderRun(req, venue, precision);
      p.result.value == OrderMonitor.Monitor(venue.entryId, req.symbol, req.expiry, venue.polls).outcome
  {
    var quantity := Sizing.MainOrderQty(venue.balance, Config.BALANCE_PCT, req.leverage, req.price, req.symbol, precision).value;
    var stopPrice := StopPrice.CalculateStopPrice(req.price, req.stopLossRoi, req.leverage, req.side).value;
    var run := OrderMonitor.Monitor(venue.entryId, req.symbol, req.expiry, venue.polls);
    var legs := TakeProfit.LegActions(TakeProfit.TakeProfitLegs(req.symbol, req.side, quantity, req.takeProfitPrices, req.takeProfitPcts, precision));
    var setup := [SetLeverage(req.leverage, req.symbol), FetchBalance];
    OrderMonitor.MonitorCreatesNoOrders(venue.entryId, req.symbol, req.expiry, venue.polls);
    TakeProfit.LegActionsAreOrders(TakeProfit.TakeProfitLegs(req.symbol, req.side, quantity, req.takeProfitPrices, req.takeProfitPcts, precision));
    assert OrdersCreated(setup) == [];
    OrdersAroundEntry(setup, EntryOrder(req, quantity, stopPrice), run.actions, if run.outcome.Filled? then legs else []);
  }

  /** The stop attached to a long entry lies below its positive price, and
      that of a short entry above it. */
  lemma EntryStopOnLosingSide(req: Request, venue: Responses, precision: Sizing.Precision)
    requires PlaceOrderRun(req, venue, precision).result.Ok?
    requires req.price > 0.0 && req.leverage > 0.0
    ensures var stopPrice := StopPrice.CalculateStopPrice(req.price, req.stopLossRoi, req.leverage, req.side).value;
      (StopPrice.Lower(req.side) == "buy" ==> stopPrice < req.price) &&
      (StopPrice.Lower(req.side) == "sell" ==> stopPrice > req.price)
  {
    if StopPrice.Lower(req.side) == "buy" {
      StopPrice.BuyStopBelowEntry(req.price, req.stopLossRoi, req.leverage, req.side);
    } else if StopPrice.Lower(req.side) == "sell" {
      StopPrice.SellStopAboveEntry(req.price, req.stopLossRoi, req.leverage, req.side);
    }
  }

  /** As written, the flip of the take-profit side is case-sensitive while
      the stop-loss calculator is not: an entry on "SELL" gets a short stop,
      above the price, yet once it fills every take-profit leg is a sell,
      the entry's own side once lower-cased. */
  lemma AsWrittenUpperCaseSellLegsOnEntrySide(req: Request, venue: Responses, precision: Sizing.Precision)
    requires req.side == "SELL" && req.price > 0.0 && req.leverage > 0.0
    requires PlaceOrderRun(req, venue, precision).result.Ok?
    requires PlaceOrderRun(req, venue, precision).result.value.Filled?
    requires req.takeProfitPrices != [] && req.takeProfitPcts != []
    ensures StopPrice.CalculateStopPrice(req.price, req.stopLossRoi, req.leverage, req.side).value > req.price
    ensures var orders := OrdersCreated(PlaceOrderRun(req, venue, precision).actions);
      |orders| >= 2 && orders[0].side == req.side &&
      forall k :: 1 <= k < |orders| ==> orders[k].side == StopPrice.Lower(req.side)
  {
    assert StopPrice.Lower("SELL") == "sell";
    StopPrice.SellStopAboveEntry(req.price, req.stopLossRoi, req.leverage, req.side);
    TakeProfitsOnlyAfterFill(req, venue, precision);
    var quantity := Sizing.MainOrderQty(venue.balance, Config.BALANCE_PCT, req.leverage, req.price, req.symbol, precision).value;
    var stopPrice := StopPrice.CalculateStopPrice(req.price, req.stopLossRoi, req.leverage, req.side).value;
    TakeProfit.UpperCaseSellOrdersAfterEntry(EntryOrder(req, quantity, stopPrice), req.symbol, quantity,
                                             req.takeProfitPrices, req.takeProfitPcts, precision);
  }
}
